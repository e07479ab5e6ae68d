/**
  When rewriting video.ini a second time changes nothing: always for a file
  that ends with a newline, and for other files exactly under a condition on
  their lines.
*/
module IniStability {
  import opened OrderedDict
  import opened IniMerge

  // ----- the settings of both rewrites: no key ends like another

  function Ending(k: string): (char, char)
    requires |k| >= 3
  {
    (k[|k| - 3], k[|k| - 1])
  }

  ghost predicate LongKeys(g: Settings) {
    forall k :: k in g.values ==> |k| >= 3
  }

  ghost predicate Distinct(g: Settings)
    requires Proper(g) && LongKeys(g)
  {
    forall i, j :: 0 <= i < j < |g.keys| ==> Ending(g.keys[i]) != Ending(g.keys[j])
  }

  ghost predicate Separate(p: Profile) {
    && ProperProfile(p) && LongKeys(p.post) && LongKeys(p.video) && Distinct(p.post) && Distinct(p.video)
    && forall k, m :: k in p.post.values && m in p.video.values ==> Ending(k) != Ending(m)
  }

  /** Keys of one section that end alike are the same key. */
  lemma SameEnding(p: Profile, section: string, k: string, m: string)
    requires Separate(p) && k in Required(p, section).values && m in Required(p, section).values
    requires |k| >= 3 && |m| >= 3 && Ending(k) == Ending(m)
    ensures k == m
  {
    var g := Required(p, section);
    var i :| 0 <= i < |g.keys| && g.keys[i] == k;
    var j :| 0 <= j < |g.keys| && g.keys[j] == m;
    assert !(i < j) && !(j < i);
  }

  lemma {:induction false} DictKeys(pairs: seq<(string, string)>)
    ensures |Dict(pairs).keys| == |pairs| && forall i :: 0 <= i < |pairs| ==> Dict(pairs).keys[i] == pairs[i].0
    ensures forall k :: k in Dict(pairs).values <==> k in Dict(pairs).keys
  {
    if pairs != [] {
      DictKeys(pairs[..|pairs| - 1]);
    }
  }

  /** The keys of the pairs have these endings, one by one. */
  ghost predicate EndAs(pairs: seq<(string, string)>, ends: seq<(char, char)>) {
    |ends| == |pairs| && forall i :: 0 <= i < |pairs| ==> |pairs[i].0| >= 3 && Ending(pairs[i].0) == ends[i]
  }

  const POST_ENDS := [('D', 'F'), ('L', 'D'), ('T', 'R'), ('X', 'A'), ('A', 'E'), ('M', 'R'), ('I', 'Y'), ('G', 'D')]
  const SHADOW_ENDS := [('I', 'E'), ('Z', '2'), ('Z', '3')]
  const EFFECT_ENDS := [('I', 'N'), ('N', 'E'), ('L', 'R'), ('E', 'D'), ('P', 'C')]
  const WINDOW_ENDS := [('D', 'H'), ('G', 'T'), ('E', 'N'), ('E', 'S')]
  const HDR_ENDS := [('H', 'R')]
  const LOW_ENDS := SHADOW_ENDS + EFFECT_ENDS + WINDOW_ENDS + HDR_ENDS

  lemma PostEnds()
    ensures EndAs(POST_PAIRS, POST_ENDS)
  {}

  lemma ShadowEnds()
    ensures EndAs(SHADOWS, SHADOW_ENDS)
  {}

  lemma EffectEnds()
    ensures EndAs(EFFECTS, EFFECT_ENDS)
  {}

  lemma WindowEnds()
    ensures EndAs(WINDOWED, WINDOW_ENDS) && EndAs([LEGACY_HDR], HDR_ENDS)
  {}

  lemma EndsJoin(a: seq<(string, string)>, b: seq<(string, string)>, c: seq<(char, char)>, d: seq<(char, char)>)
    requires EndAs(a, c) && EndAs(b, d)
    ensures EndAs(a + b, c + d)
  {
    hide Ending;
  }

  lemma LowEnds()
    ensures EndAs(LOW_PAIRS, LOW_ENDS)
  {
    hide EndAs, SHADOWS, EFFECTS, WINDOWED, LEGACY_HDR;
    ShadowEnds();
    EffectEnds();
    WindowEnds();
    EndsJoin(SHADOWS, EFFECTS, SHADOW_ENDS, EFFECT_ENDS);
    EndsJoin(SHADOWS + EFFECTS, WINDOWED, SHADOW_ENDS + EFFECT_ENDS, WINDOW_ENDS);
    EndsJoin(SHADOWS + EFFECTS + WINDOWED, [LEGACY_HDR], SHADOW_ENDS + EFFECT_ENDS + WINDOW_ENDS, HDR_ENDS);
  }

  lemma EndsDiffer()
    ensures NoDup(POST_ENDS) && NoDup(LOW_ENDS)
    ensures forall i, j :: 0 <= i < |POST_ENDS| && 0 <= j < |LOW_ENDS| ==> POST_ENDS[i] != LOW_ENDS[j]
  {}

  lemma DictDistinct(pairs: seq<(string, string)>, ends: seq<(char, char)>)
    requires EndAs(pairs, ends) && NoDup(ends) && AllProper(pairs)
    ensures Proper(Dict(pairs)) && LongKeys(Dict(pairs)) && Distinct(Dict(pairs))
  {
    hide Dict, Ending, Proper;
    DictProper(pairs);
    DictKeys(pairs);
  }

  lemma DictApart(a: seq<(string, string)>, b: seq<(string, string)>, c: seq<(char, char)>, d: seq<(char, char)>)
    requires EndAs(a, c) && EndAs(b, d) && forall i, j :: 0 <= i < |c| && 0 <= j < |d| ==> c[i] != d[j]
    ensures forall k, m :: k in Dict(a).values && m in Dict(b).values ==> |k| >= 3 && |m| >= 3 && Ending(k) != Ending(m)
  {
    hide Dict, Ending;
    DictKeys(a);
    DictKeys(b);
    forall k, m | k in Dict(a).values && m in Dict(b).values ensures |k| >= 3 && |m| >= 3 && Ending(k) != Ending(m) {
      var i :| 0 <= i < |a| && Dict(a).keys[i] == k;
      var j :| 0 <= j < |b| && Dict(b).keys[j] == m;
      assert c[i] != d[j];
    }
  }

  /** Both rewrites have such settings. */
  lemma ProfilesSeparate()
    ensures Separate(PURE) && Separate(LOW)
  {
    hide Dict, EndAs, AllProper, NoDup, Ending, Proper, LongKeys, Distinct, POST_PAIRS, LOW_PAIRS;
    PostAll();
    LowPairs();
    PostEnds();
    LowEnds();
    WindowEnds();
    EndsDiffer();
    OneEnd();
    DictDistinct(POST_PAIRS, POST_ENDS);
    DictDistinct(LOW_PAIRS, LOW_ENDS);
    DictDistinct([LEGACY_HDR], HDR_ENDS);
    DictApart(POST_PAIRS, LOW_PAIRS, POST_ENDS, LOW_ENDS);
    DictApart(POST_PAIRS, [LEGACY_HDR], POST_ENDS, HDR_ENDS);
  }

  lemma PostAll()
    ensures AllProper(POST_PAIRS)
  {
    PostPairs();
  }

  lemma OneEnd()
    ensures NoDup(HDR_ENDS)
    ensures forall i, j :: 0 <= i < |POST_ENDS| && 0 <= j < |HDR_ENDS| ==> POST_ENDS[i] != HDR_ENDS[j]
  {}

  // ----- a line that runs into the one appended after it

  lemma {:induction false} StripLeftJoin(l: string, s: string)
    requires s != "" && !Blank(s[0])
    ensures StripLeft(l + s) == StripLeft(l) + s
    ensures StripLeft(l) != "" ==> !Blank(StripLeft(l)[0])
  {
    if l == "" {
      assert l + s == s;
    } else {
      assert (l + s)[1..] == l[1..] + s;
      StripLeftJoin(l[1..], s);
    }
  }

  lemma {:induction false} StripRightPrefix(s: string)
    ensures StripRight(s) <= s
    ensures s != "" && !Blank(s[0]) ==> StripRight(s) != ""
  {
    if s != "" && Blank(s[|s| - 1]) {
      StripRightPrefix(s[..|s| - 1]);
    }
  }

  lemma {:induction false} StripRightEquals(s: string)
    requires '=' in s
    ensures '=' in StripRight(s) && BeforeEquals(StripRight(s)) == BeforeEquals(s)
  {
    hide BeforeEquals;
    if Blank(s[|s| - 1]) {
      var init := s[..|s| - 1];
      assert s == init + [s[|s| - 1]] && '=' in init;
      StripRightEquals(init);
      BeforeEqualsPrefix(init, [s[|s| - 1]]);
    }
  }

  lemma {:induction false} BeforeEqualsPrefix(a: string, b: string)
    requires '=' in a
    ensures BeforeEquals(a + b) == BeforeEquals(a)
  {
    if a[0] != '=' {
      assert (a + b)[1..] == a[1..] + b;
      BeforeEqualsPrefix(a[1..], b);
    }
  }

  lemma {:induction false} BeforeEqualsStart(s: string)
    ensures s != "" && s[0] != '=' ==> BeforeEquals(s) != "" && BeforeEquals(s)[0] == s[0]
  {}

  /** The key of a line run together with an appended one. */
  function JoinedKey(l: string, k: string): string {
    var a := StripLeft(l);
    if '=' in a then Upper(Strip(BeforeEquals(a))) else Upper(a) + k
  }

  lemma EntryKind(line: string, body: string)
    requires Strip(line) == body && '=' in body && body[|body| - 1] != ']'
    ensures KindOf(line) == Entry(Upper(Strip(BeforeEquals(body))))
  {
    hide Strip, Upper, BeforeEquals;
  }

  lemma BodyEnd(a: string, k: string, v: string)
    requires KeyWord(k) && Word(v)
    ensures var body := a + k + "=" + v;
      && a + Line(k, v) == body + "\n" && '=' in body
      && body[|body| - 1] != ']' && !Blank(body[|body| - 1]) && !Blank(Line(k, v)[0])
  {
    var body := a + k + "=" + v;
    assert body[|body| - 1] == v[|v| - 1] && body[|a| + |k|] == '=' && Line(k, v)[0] == k[0];
    assert WordChar(v[|v| - 1]) && KeyChar(k[0]);
  }

  lemma JoinedBody(l: string, k: string, v: string)
    requires KeyWord(k) && Word(v)
    ensures var body := StripLeft(l) + k + "=" + v;
      KindOf(l + Line(k, v)) == Entry(Upper(Strip(BeforeEquals(body))))
  {
    hide BeforeEquals, Upper, StripLeft, StripRight, KindOf, Blank, Line, KeyWord, Word;
    var a := StripLeft(l);
    var body := a + k + "=" + v;
    BodyEnd(a, k, v);
    LineStarts(k, v);
    StripLeftJoin(l, Line(k, v));
    StripRightEnd(body);
    EntryKind(l + Line(k, v), body);
  }

  lemma LineStarts(k: string, v: string)
    ensures Line(k, v) != ""
  {}

  lemma JoinedWord(a: string, k: string)
    requires KeyWord(k) && (a != "" ==> !Blank(a[0]))
    ensures Upper(Strip(a + k)) == Upper(a) + k
  {
    var s := a + k;
    assert s[0] == if a == "" then k[0] else a[0];
    assert StripLeft(s) == s;
    assert s[|s| - 1] == k[|k| - 1];
    assert StripRight(s) == s;
    assert Upper(k) == k;
    assert Upper(s) == Upper(a) + Upper(k);
  }

  lemma JoinedKind(l: string, k: string, v: string)
    requires KeyWord(k) && Word(v)
    ensures KindOf(l + Line(k, v)) == Entry(JoinedKey(l, k))
    ensures StripLeft(l) == "" ==> JoinedKey(l, k) == k
  {
    hide BeforeEquals, Upper, StripLeft, StripRight, KindOf;
    var a := StripLeft(l);
    JoinedBody(l, k, v);
    NotBlankStart(l);
    if '=' in a {
      assert a + k + "=" + v == a + (k + "=" + v);
      BeforeEqualsPrefix(a, k + "=" + v);
    } else {
      assert '=' !in a + k;
      BeforeEqualsOf(a + k, v);
      JoinedWord(a, k);
      EmptyUpper();
    }
  }

  lemma EmptyUpper()
    ensures Upper("") == ""
  {}

  lemma {:induction false} NotBlankStart(l: string)
    ensures StripLeft(l) != "" ==> !Blank(StripLeft(l)[0])
  {
    if l != "" && Blank(l[0]) {
      NotBlankStart(l[1..]);
    }
  }

  lemma BlankLine(l: string)
    ensures Strip(l) == "" <==> StripLeft(l) == ""
  {
    NotBlankStart(l);
    StripRightPrefix(StripLeft(l));
  }

  /**
    A line that is no header and whose key is not required stays so when it runs
    into a required one, unless it is blank.
  */
  lemma JoinedUnwanted(p: Profile, section: string, l: string, k: string)
    requires Separate(p) && k in Required(p, section).values && Strip(l) != ""
    requires !KindOf(l).Header? && !Wanted(p, section, l)
    ensures JoinedKey(l, k) !in Required(p, section).values
  {
    hide BeforeEquals, StripLeft, StripRight, Separate;
    var a := StripLeft(l);
    BlankLine(l);
    if '=' in a {
      StripRightEquals(a);
    } else if JoinedKey(l, k) in Required(p, section).values {
      var m := JoinedKey(l, k);
      SectionKeys(p, section, k);
      assert m == Upper(a) + k && |m| > |k|;
      assert m[|m| - 3] == k[|k| - 3] && m[|m| - 1] == k[|k| - 1];
      SameEnding(p, section, k, m);
    }
  }

  lemma SectionKeys(p: Profile, section: string, k: string)
    requires Separate(p) && k in Required(p, section).values
    ensures KeyWord(k) && Word(Required(p, section).values[k]) && |k| >= 3
  {}

  /** A header that runs into a required line is an entry nothing requires. */
  lemma JoinedHeader(p: Profile, section: string, l: string, k: string)
    requires ProperProfile(p) && KindOf(l).Header?
    ensures JoinedKey(l, k) !in Required(p, section).values
  {
    var a := StripLeft(l);
    HeaderBracket(l);
    RequiredProper(p, section);
    if '=' in a {
      BeforeEqualsStart(a);
      StripKeepsStart(BeforeEquals(a));
    }
    assert JoinedKey(l, k) != "" && JoinedKey(l, k)[0] == '[';
    assert !KeyWord(JoinedKey(l, k));
  }

  lemma HeaderBracket(l: string)
    requires KindOf(l).Header?
    ensures StripLeft(l) != "" && StripLeft(l)[0] == '[' && Strip(l) != ""
  {
    StripRightPrefix(StripLeft(l));
  }

  lemma StripKeepsStart(s: string)
    requires s != "" && !Blank(s[0])
    ensures Strip(s) != "" && Strip(s)[0] == s[0]
  {
    StripRightPrefix(s);
  }

  // ----- which keys the second pass has written

  /** How often a section is opened. */
  function HeaderCount(lines: seq<string>, section: string): nat {
    if lines == [] then 0
    else HeaderCount(lines[..|lines| - 1], section) + if KindOf(lines[|lines| - 1]) == Header(section) then 1 else 0
  }

  /** The section has been left at least once. */
  predicate WasLeft(lines: seq<string>, section: string) {
    HeaderCount(lines, section) >= 2 || (HeaderCount(lines, section) == 1 && SectionOf(lines) != section)
  }

  ghost predicate AllDone(p: Profile, st: State, section: string) {
    forall k :: k in Required(p, section).values ==> k in Done(st, section)
  }

  /** The second pass has written every key of a section that was left, and otherwise what the first has. */
  ghost predicate Tracks(p: Profile, lines: seq<string>, q: State, r: State, section: string) {
    && (WasLeft(lines, section) ==> AllDone(p, r, section))
    && (!WasLeft(lines, section) ==> Done(r, section) == Done(q, section))
    && (HeaderCount(lines, section) == 0 ==> SectionOf(lines) != section)
  }

  lemma {:induction false} NoneMissing(g: Settings, keys: seq<string>, done: set<string>)
    requires (forall k :: k in keys ==> k in g.values) && Missing(g, keys, done) == []
    ensures forall k :: k in keys ==> k in done
  {
    if keys != [] {
      assert keys == keys[..|keys| - 1] + [keys[|keys| - 1]];
      NoneMissing(g, keys[..|keys| - 1], done);
    }
  }

  /** Nothing is appended exactly when every key is done. */
  lemma FlushNoneIff(p: Profile, st: State)
    requires ProperProfile(p)
    ensures Flush(p, st) == [] <==> AllDone(p, st, st.section)
  {
    RequiredProper(p, st.section);
    var g := Required(p, st.section);
    if Flush(p, st) == [] {
      NoneMissing(g, g.keys, Done(st, st.section));
    }
    if AllDone(p, st, st.section) {
      NothingMissing(g, g.keys, Done(st, st.section));
    }
  }

  lemma FollowsDone(q: State, r: State, section: string)
    requires Follows(q, r)
    ensures Done(q, section) <= Done(r, section)
  {}

  /** Scanning the flushed lines of the first pass completes the section and touches no other. */
  lemma FlushNotes(p: Profile, q: State, r: State)
    requires ProperProfile(p) && Follows(q, r)
    ensures var f := Scan(p, r, Flush(p, q));
      && f.out == r.out + Flush(p, q) && f.section == q.section && AllDone(p, f, q.section)
      && forall s :: s != q.section ==> Done(f, s) == Done(r, s)
  {
    hide Scan, Missing, Step;
    var g := Required(p, q.section);
    RequiredProper(p, q.section);
    ScanMissingNotes(p, r, g.keys, Done(q, q.section));
    ScanFlush(p, q, r);
    FlushNoneIff(p, Scan(p, r, Flush(p, q)));
    NotedSection(r, set k | k in g.keys && k !in Done(q, q.section));
  }

  lemma CountSnoc(lines: seq<string>, line: string, section: string)
    ensures HeaderCount(lines + [line], section)
      == HeaderCount(lines, section) + if KindOf(line) == Header(section) then 1 else 0
    ensures SectionOf(lines + [line]) == if KindOf(line).Header? then KindOf(line).section else SectionOf(lines)
  {
    assert (lines + [line])[..|lines|] == lines;
  }

  lemma HeaderTracks(p: Profile, lines: seq<string>, q: State, r: State, line: string, section: string)
    requires ProperProfile(p) && Follows(q, r) && KindOf(line).Header? && Target(section)
    requires SectionOf(lines) == q.section && Tracks(p, lines, q, r, section)
    ensures Tracks(p, lines + [line], Step(p, q, line), Scan(p, r, Flush(p, q) + [line]), section)
  {
    hide Scan, Missing, KindOf, Required, Flush, SectionOf, HeaderCount, ProperProfile;
    CountSnoc(lines, line, section);
    FlushNotes(p, q, r);
    var f := Scan(p, r, Flush(p, q));
    ScanJoin(p, r, Flush(p, q), [line]);
    ScanOne(p, f, line);
    StepHeaderDone(p, q, line);
    StepHeaderDone(p, f, line);
  }

  lemma StepHeaderDone(p: Profile, st: State, line: string)
    requires ProperProfile(p) && KindOf(line).Header?
    ensures forall s :: s != st.section ==> Done(Step(p, st, line), s) == Done(st, s)
    ensures Done(st, st.section) <= Done(Step(p, st, line), st.section)
  {
    hide Flush;
  }

  lemma EntryTracks(p: Profile, lines: seq<string>, q: State, r: State, line: string, section: string)
    requires ProperProfile(p) && Follows(q, r) && Wanted(p, q.section, line) && Target(section)
    requires SectionOf(lines) == q.section && Tracks(p, lines, q, r, section)
    ensures var l := Line(KindOf(line).key, Required(p, q.section).values[KindOf(line).key]);
      Tracks(p, lines + [line], Step(p, q, line), Scan(p, r, [l]), section)
  {
    hide Scan, KindOf, Required, SectionOf, HeaderCount, ProperProfile;
    CountSnoc(lines, line, section);
    var k := KindOf(line).key;
    StepWanted(p, r, k);
    ScanOne(p, r, Line(k, Required(p, q.section).values[k]));
    assert Step(p, q, line).post == Noted(q, {k}).post && Step(p, q, line).video == Noted(q, {k}).video;
    NotedSection(q, {k});
    NotedSection(r, {k});
  }

  lemma PlainTracks(p: Profile, lines: seq<string>, q: State, r: State, line: string, section: string)
    requires ProperProfile(p) && Follows(q, r) && Target(section)
    requires !KindOf(line).Header? && !Wanted(p, q.section, line)
    requires SectionOf(lines) == q.section && Tracks(p, lines, q, r, section)
    ensures Tracks(p, lines + [line], Step(p, q, line), Scan(p, r, [line]), section)
  {
    hide Scan, KindOf, Required, SectionOf, HeaderCount, ProperProfile;
    CountSnoc(lines, line, section);
    ScanOne(p, r, line);
    assert Step(p, r, line) == r.(out := r.out + [line]) && Step(p, q, line) == q.(out := q.out + [line]);
  }

  lemma {:induction false} ScanTracks(p: Profile, lines: seq<string>, section: string)
    requires ProperProfile(p) && Target(section)
    ensures var q := Scan(p, START, lines);
      Tracks(p, lines, q, Scan(p, START, q.out), section) && SectionOf(lines) == q.section
  {
    hide Step, KindOf, Tracks, Wanted, Flush, ProperProfile;
    if lines == [] {
      StartTracks(p, section);
    } else {
      var init, line := lines[..|lines| - 1], lines[|lines| - 1];
      assert lines == init + [line];
      ScanTracks(p, init, section);
      ScanAgain(p, init);
      ScanSound(p, lines);
      var q := Scan(p, START, init);
      var r := Scan(p, START, q.out);
      if KindOf(line).Header? {
        HeaderTracks(p, init, q, r, line, section);
        HeaderAgain(p, q, r, line);
        ScanJoin(p, START, q.out, Flush(p, q) + [line]);
      } else if Wanted(p, q.section, line) {
        WantedKey(p, q.section, line);
        var l := Line(KindOf(line).key, Required(p, q.section).values[KindOf(line).key]);
        EntryTracks(p, init, q, r, line, section);
        EntryAgain(p, q, r, line);
        ScanJoin(p, START, q.out, [l]);
      } else {
        UnwantedKey(p, q.section, line);
        PlainTracks(p, init, q, r, line, section);
        PlainAgain(p, q, r, line);
        ScanJoin(p, START, q.out, [line]);
      }
    }
  }

  lemma StartTracks(p: Profile, section: string)
    requires ProperProfile(p) && Target(section)
    ensures Tracks(p, [], START, Scan(p, START, []), section)
  {}

  lemma WantedKey(p: Profile, section: string, line: string)
    requires Wanted(p, section, line)
    ensures KindOf(line).Entry? && KindOf(line).key in Required(p, section).values
  {}

  lemma UnwantedKey(p: Profile, section: string, line: string)
    requires !Wanted(p, section, line)
    ensures KindOf(line).Entry? ==> KindOf(line).key !in Required(p, section).values
  {}

  // ----- texts whose last line is open

  predicate OpenEnded(t: string) {
    t != "" && t[|t| - 1] != '\n'
  }

  predicate Open(l: string) {
    l != "" && '\n' !in l
  }

  lemma {:induction false} HeadOpen(t: string)
    ensures '\n' !in t ==> Head(t) == |t|
    ensures OpenEnded(t) && Head(t) < |t| ==> OpenEnded(t[Head(t)..]) && Terminated(t[..Head(t)])
    ensures OpenEnded(t) && Head(t) == |t| ==> Open(t)
  {
    if t != "" && t[0] != '\n' {
      HeadOpen(t[1..]);
      var h := Head(t[1..]);
      assert t[..1 + h] == [t[0]] + t[1..][..h];
      if OpenEnded(t) && 1 + h < |t| {
        assert t[1..][h..] == t[1 + h..];
        assert t[..1 + h][..h] == [t[0]] + t[1..][..h][..h - 1];
      }
      assert t == [t[0]] + t[1..];
    }
  }

  /** The lines of an open text: all but the last end with a newline, the last is open. */
  ghost predicate OpenAtEnd(lines: seq<string>) {
    lines != [] && AllTerminated(lines[..|lines| - 1]) && Open(lines[|lines| - 1])
  }

  lemma OpenAtEndCons(l: string, rest: seq<string>)
    ensures Terminated(l) && OpenAtEnd(rest) ==> OpenAtEnd([l] + rest)
    ensures Open(l) ==> OpenAtEnd([l])
  {
    hide Terminated, Open;
    if rest != [] {
      assert ([l] + rest)[..|rest|] == [l] + rest[..|rest| - 1];
    }
  }

  lemma {:induction false} OpenLines(t: string)
    requires OpenEnded(t)
    ensures OpenAtEnd(Lines(t))
  {
    hide Terminated, Open, OpenEnded, OpenAtEnd, Lines;
    HeadOpen(t);
    NonEmptyOpen(t);
    LinesUnfold(t);
    if Head(t) < |t| {
      OpenLines(t[Head(t)..]);
      OpenAtEndCons(t[..Head(t)], Lines(t[Head(t)..]));
    } else {
      assert t[..|t|] == t && t[|t|..] == "" && [t] + [] == [t];
      OpenAtEndCons(t, []);
    }
  }

  lemma LinesUnfold(t: string)
    ensures t != "" ==> Lines(t) == [t[..Head(t)]] + Lines(t[Head(t)..])
    ensures Lines("") == []
  {}

  lemma NonEmptyOpen(t: string)
    ensures OpenEnded(t) ==> t != ""
  {}

  /** Terminated lines followed by an open one read back. */
  lemma {:induction false} LinesOfOpen(lines: seq<string>, l: string)
    requires AllTerminated(lines) && Open(l)
    ensures Lines(Text(lines + [l])) == lines + [l]
  {
    hide Terminated;
    if lines == [] {
      HeadOpen(l);
      TextCons(l, []);
      assert [l] + [] == [l] && lines + [l] == [l] && l + "" == l;
      assert l[..|l|] == l && l[|l|..] == "" && Lines("") == [];
    } else {
      var rest := lines[1..];
      assert lines + [l] == [lines[0]] + (rest + [l]);
      TextCons(lines[0], rest + [l]);
      LinesOfOpen(rest, l);
      HeadOf(lines[0], Text(rest + [l]));
      LineNotEmpty(lines[0]);
      LinesCons(lines[0], Text(rest + [l]));
    }
  }

  lemma LineNotEmpty(l: string)
    requires Terminated(l)
    ensures l != ""
  {}

  lemma {:induction false} TextJoin(a: seq<string>, b: seq<string>)
    ensures Text(a + b) == Text(a) + Text(b)
  {
    if a == [] {
      assert a + b == b;
    } else {
      assert a + b == [a[0]] + (a[1..] + b) && a == [a[0]] + a[1..];
      TextCons(a[0], a[1..] + b);
      TextJoin(a[1..], b);
    }
  }

  /** An open line and the one after it make one line of the text. */
  lemma TextRuns(a: seq<string>, l: string, m: string, b: seq<string>)
    ensures Text(a + [l] + ([m] + b)) == Text(a + [l + m] + b)
  {
    hide Text;
    assert a + [l] + ([m] + b) == a + ([l] + ([m] + b)) && a + [l + m] + b == a + ([l + m] + b);
    TextJoin(a, [l] + ([m] + b));
    TextJoin(a, [l + m] + b);
    TextCons(l, [m] + b);
    TextCons(m, b);
    TextCons(l + m, b);
    assert l + (m + Text(b)) == (l + m) + Text(b);
  }

  lemma RunTerminated(l: string, m: string)
    requires Open(l) && Terminated(m)
    ensures Terminated(l + m)
  {
    assert (l + m)[..|l + m| - 1] == l + m[..|m| - 1];
  }

  lemma TerminatedJoin(a: seq<string>, b: seq<string>)
    requires AllTerminated(a) && AllTerminated(b)
    ensures AllTerminated(a + b)
  {
    hide Terminated;
  }

  // ----- the first missing key

  lemma {:induction false} MissingSplit(g: Settings, a: seq<string>, b: seq<string>, done: set<string>)
    requires forall k :: k in a + b ==> k in g.values
    ensures (forall k :: k in a ==> k in g.values) && (forall k :: k in b ==> k in g.values)
    ensures Missing(g, a + b, done) == Missing(g, a, done) + Missing(g, b, done)
  {
    assert forall k :: k in a ==> k in a + b;
    assert forall k :: k in b ==> k in a + b;
    if b == [] {
      assert a + b == a;
    } else {
      var init := b[..|b| - 1];
      assert (a + b)[..|a + b| - 1] == a + init;
      assert forall k :: k in a + init ==> k in a + b;
      MissingSplit(g, a, init, done);
    }
  }

  lemma FirstNotDone(keys: seq<string>, done: set<string>) returns (m: nat)
    requires exists n :: 0 <= n < |keys| && keys[n] !in done
    ensures m < |keys| && keys[m] !in done && forall i :: 0 <= i < m ==> keys[i] in done
  {
    var n :| 0 <= n < |keys| && keys[n] !in done;
    m := 0;
    while keys[m] in done
      invariant m <= n && forall i :: 0 <= i < m ==> keys[i] in done
      decreases n - m
    {
      m := m + 1;
    }
  }

  lemma SomeNotDone(g: Settings, keys: seq<string>, done: set<string>)
    requires (forall k :: k in keys ==> k in g.values) && Missing(g, keys, done) != []
    ensures exists n :: 0 <= n < |keys| && keys[n] !in done
  {
    if forall n :: 0 <= n < |keys| ==> keys[n] in done {
      NothingMissing(g, keys, done);
    }
  }

  lemma FirstMissing(g: Settings, keys: seq<string>, done: set<string>) returns (m: nat)
    requires (forall k :: k in keys ==> k in g.values) && Missing(g, keys, done) != []
    ensures m < |keys| && keys[m] !in done && forall k :: k in keys[..m] ==> k in done
    ensures keys[m] in g.values && forall k :: k in keys[m + 1..] ==> k in g.values
    ensures Missing(g, keys, done) == [Line(keys[m], g.values[keys[m]])] + Missing(g, keys[m + 1..], done)
  {
    hide Missing;
    SomeNotDone(g, keys, done);
    m := FirstNotDone(keys, done);
    var k, before, rest := keys[m], keys[..m], keys[m + 1..];
    assert forall x :: x in before ==> x in done;
    assert keys == before + ([k] + rest);
    assert forall x :: x in [k] + rest ==> x in keys;
    MissingSplit(g, before, [k] + rest, done);
    MissingSplit(g, [k], rest, done);
    NothingMissing(g, before, done);
    OneMissing(g, k, done);
  }

  // ----- the second pass over an open text

  /** Rewriting the text of these lines twice is rewriting it once. */
  ghost predicate Twice(p: Profile, lines: seq<string>)
    requires ProperProfile(p)
  {
    Text(Merge(p, Lines(Text(Merge(p, lines))))) == Text(Merge(p, lines))
  }

  lemma FlushTerminated(p: Profile, st: State)
    requires ProperProfile(p)
    ensures AllTerminated(Flush(p, st))
  {
    RequiredProper(p, st.section);
    MissingTerminated(Required(p, st.section), Required(p, st.section).keys, Done(st, st.section));
  }

  lemma WantedTerminated(p: Profile, section: string, l: string)
    requires ProperProfile(p) && Wanted(p, section, l)
    ensures Terminated(Line(KindOf(l).key, Required(p, section).values[KindOf(l).key]))
  {
    hide KindOf;
    var k := KindOf(l).key;
    RequiredProper(p, section);
    KeyIsWord(k);
    LineTerminated(k, Required(p, section).values[k]);
  }

  /** What the last line turns into: a part that reads back, then the line itself or the required one. */
  lemma LastStep(p: Profile, q: State, l: string) returns (a: seq<string>, x: string)
    requires ProperProfile(p) && AllTerminated(q.out)
    ensures Step(p, q, l).out == a + [x] && AllTerminated(a)
    ensures Wanted(p, q.section, l) ==> Terminated(x)
    ensures !Wanted(p, q.section, l) ==> x == l && a == q.out + if KindOf(l).Header? then Flush(p, q) else []
  {
    hide KindOf, Flush, Terminated, Required;
    FlushTerminated(p, q);
    if KindOf(l).Header? {
      TerminatedJoin(q.out, Flush(p, q));
      a, x := q.out + Flush(p, q), l;
    } else if Wanted(p, q.section, l) {
      WantedTerminated(p, q.section, l);
      a, x := q.out, Line(KindOf(l).key, Required(p, q.section).values[KindOf(l).key]);
    } else {
      a, x := q.out, l;
      assert q.out + [] == q.out;
    }
  }

  lemma ReadBackTwice(p: Profile, lines: seq<string>)
    requires ProperProfile(p) && Lines(Text(Merge(p, lines))) == Merge(p, lines)
    ensures Twice(p, lines)
  {
    hide Merge;
    MergeTwice(p, lines);
  }

  /** The last line is replaced, or nothing is appended after it. */
  lemma ClosedEnd(p: Profile, init: seq<string>, l: string)
    requires ProperProfile(p) && AllTerminated(init) && Open(l)
    requires var q := Scan(p, START, init + [l]);
      Wanted(p, Scan(p, START, init).section, l) || Flush(p, q) == []
    ensures Twice(p, init + [l])
  {
    hide Step, Wanted, Flush, Lines, Text, Terminated;
    var lines := init + [l];
    assert lines[..|init|] == init;
    var q0 := Scan(p, START, init);
    var q := Scan(p, START, lines);
    assert q == Step(p, q0, l);
    ScanTerminated(p, init);
    var a, x := LastStep(p, q0, l);
    FlushTerminated(p, q);
    if Terminated(x) {
      TerminatedJoin(a, [x]);
      TerminatedJoin(a + [x], Flush(p, q));
      LinesOfText(Merge(p, lines));
    } else {
      LinesOfOpen(a, l);
      assert Merge(p, lines) == a + [l];
    }
    ReadBackTwice(p, lines);
  }

  /** The lines read back when the last one runs into the first appended one. */
  lemma RunLines(p: Profile, lines: seq<string>, a: seq<string>, l: string, m: string, rest: seq<string>)
    requires ProperProfile(p) && Merge(p, lines) == a + [l] + ([m] + rest)
    requires AllTerminated(a) && Open(l) && Terminated(m) && AllTerminated(rest)
    ensures Text(Merge(p, lines)) == Text(a + [l + m] + rest)
    ensures Lines(Text(Merge(p, lines))) == a + [l + m] + rest
  {
    hide Merge, Terminated, Open, Text, Lines;
    TextRuns(a, l, m, rest);
    RunTerminated(l, m);
    TerminatedJoin(a, [l + m]);
    TerminatedJoin(a + [l + m], rest);
    LinesOfText(a + [l + m] + rest);
  }

  /** The key stands at m, and `later` are the keys after it. */
  predicate StandsAt(keys: seq<string>, m: nat, k: string, later: seq<string>) {
    m < |keys| && keys[m] == k && later == keys[m + 1..]
  }

  /** What is appended to an open end: the first missing line and the others, with their keys. */
  lemma OpenFlush(p: Profile, q: State) returns (k: string, v: string, later: seq<string>)
    requires ProperProfile(p) && Flush(p, q) != []
    ensures Target(q.section) && k in Required(p, q.section).values && v == Required(p, q.section).values[k]
    ensures KeyWord(k) && Word(v) && k !in Done(q, q.section)
    ensures forall x :: x in later ==> x in Required(p, q.section).values
    ensures Flush(p, q) == [Line(k, v)] + Missing(Required(p, q.section), later, Done(q, q.section))
    ensures exists m :: StandsAt(Required(p, q.section).keys, m, k, later)
    ensures forall x :: x in Required(p, q.section).values ==> x in Done(q, q.section) || x == k || x in later
  {
    hide KeyWord, Word;
    var g := Required(p, q.section);
    RequiredProper(p, q.section);
    var m := FirstMissing(g, g.keys, Done(q, q.section));
    k, v, later := g.keys[m], g.values[g.keys[m]], g.keys[m + 1..];
    assert StandsAt(g.keys, m, k, later);
    assert g.keys == g.keys[..m] + [k] + later;
  }

  lemma LaterTerminated(p: Profile, q: State, later: seq<string>)
    requires ProperProfile(p) && forall x :: x in later ==> x in Required(p, q.section).values
    ensures AllTerminated(Missing(Required(p, q.section), later, Done(q, q.section)))
  {
    RequiredProper(p, q.section);
    MissingTerminated(Required(p, q.section), later, Done(q, q.section));
  }

  lemma FirstTerminated(k: string, v: string)
    requires KeyWord(k) && Word(v)
    ensures Terminated(Line(k, v))
  {
    KeyIsWord(k);
    LineTerminated(k, v);
  }

  // ----- a header at the open end: it stops being one, and the file is settled

  /** Lines for keys the section does not require are kept as they are. */
  lemma {:induction false} ScanForeign(p: Profile, st: State, g: Settings, keys: seq<string>, done: set<string>)
    requires ProperProfile(p) && Proper(g)
    requires forall k :: k in keys ==> k in g.values && k !in Required(p, st.section).values
    ensures Scan(p, st, Missing(g, keys, done)) == st.(out := st.out + Missing(g, keys, done))
  {
    hide KindOf, KeyWord, Word, Required;
    if keys == [] {
      assert st.out + [] == st.out;
    } else {
      var init, k := keys[..|keys| - 1], keys[|keys| - 1];
      assert keys == init + [k];
      ScanForeign(p, st, g, init, done);
      if k !in done {
        var lines, line := Missing(g, init, done), Line(k, g.values[k]);
        ScanJoin(p, st, lines, [line]);
        ScanOne(p, Scan(p, st, lines), line);
        LineKind(k, g.values[k]);
        assert st.out + lines + [line] == st.out + (lines + [line]);
      }
    }
  }

  /** Whatever section they end up in, appended lines are repeated, and nothing is forgotten. */
  lemma ScanLater(p: Profile, st: State, section: string, later: seq<string>, done: set<string>)
    requires Separate(p) && Target(section) && forall x :: x in later ==> x in Required(p, section).values
    ensures var lines := Missing(Required(p, section), later, done);
      var r := Scan(p, st, lines);
      && r.out == st.out + lines && r.section == st.section
      && forall s :: Done(st, s) <= Done(r, s)
  {
    hide Scan, Missing, Separate, Done;
    SeparateProper(p);
    if st.section == section {
      ScanMissingNotes(p, st, later, done);
      NotedGrows(st, set k | k in later && k !in done);
    } else {
      RequiredProper(p, section);
      forall x | x in later ensures x !in Required(p, st.section).values {
        OtherSection(p, section, st.section, x);
      }
      ScanForeign(p, st, Required(p, section), later, done);
      SameDone(st, Missing(Required(p, section), later, done));
    }
  }

  lemma SameDone(st: State, lines: seq<string>)
    ensures forall s :: Done(st.(out := st.out + lines), s) == Done(st, s)
  {}

  lemma SeparateProper(p: Profile)
    requires Separate(p)
    ensures ProperProfile(p)
  {}

  lemma OtherSection(p: Profile, section: string, other: string, k: string)
    requires Separate(p) && section != other && k in Required(p, section).values
    ensures k !in Required(p, other).values
  {}

  /** How the text of the first pass reads back when lines are appended to an open end. */
  lemma OpenRun(p: Profile, init: seq<string>, l: string)
      returns (a: seq<string>, k: string, v: string, later: seq<string>)
    requires Separate(p) && AllTerminated(init) && Open(l)
    requires !Wanted(p, Scan(p, START, init).section, l) && Flush(p, Scan(p, START, init + [l])) != []
    ensures var q0 := Scan(p, START, init);
      a == q0.out + if KindOf(l).Header? then Flush(p, q0) else []
    ensures var q := Scan(p, START, init + [l]);
      && Target(q.section) && k in Required(p, q.section).values && v == Required(p, q.section).values[k]
      && KeyWord(k) && Word(v) && k !in Done(q, q.section) && k !in later
      && (forall x :: x in later ==> x in Required(p, q.section).values)
      && (forall x :: x in Required(p, q.section).values ==> x in Done(q, q.section) || x == k || x in later)
      && var second := a + [l + Line(k, v)] + Missing(Required(p, q.section), later, Done(q, q.section));
         (Twice(p, init + [l]) <==> Text(Merge(p, second)) == Text(second))
  {
    hide Step, Flush, Lines, Text, Terminated, Open, KindOf, Separate, KeyWord, Word, Missing, Required, Wanted;
    SeparateProper(p);
    var lines := init + [l];
    assert lines[..|init|] == init;
    var q := Scan(p, START, lines);
    ScanTerminated(p, init);
    var x;
    a, x := LastStep(p, Scan(p, START, init), l);
    k, v, later := OpenFlush(p, q);
    var m :| StandsAt(Required(p, q.section).keys, m, k, later);
    KeyOnce(p, q.section, k, m);
    LaterTerminated(p, q, later);
    FirstTerminated(k, v);
    RunLines(p, lines, a, l, Line(k, v), Missing(Required(p, q.section), later, Done(q, q.section)));
  }

  /** The second pass over such lines. */
  lemma SecondMerge(p: Profile, a: seq<string>, run: string, rest: seq<string>)
    requires ProperProfile(p)
    ensures var r2 := Scan(p, Step(p, Scan(p, START, a), run), rest);
      Merge(p, a + [run] + rest) == r2.out + Flush(p, r2)
  {
    hide Step, Flush;
    ScanJoin(p, START, a, [run]);
    ScanOne(p, Scan(p, START, a), run);
    ScanJoin(p, START, a + [run], rest);
  }

  lemma OpenHeader(p: Profile, init: seq<string>, l: string)
    requires Separate(p) && AllTerminated(init) && Open(l) && KindOf(l).Header?
    requires Flush(p, Scan(p, START, init + [l])) != []
    ensures Twice(p, init + [l])
  {
    hide Step, Flush, Lines, Text, Terminated, Open, KindOf, Separate, KeyWord, Word, Missing, Required, Merge,
      Twice, AllTerminated, Scan, Done, Wanted;
    SeparateProper(p);
    var q0 := Scan(p, START, init);
    var q := Scan(p, START, init + [l]);
    HeaderUnwanted(p, q0.section, l);
    var a, k, v, later := OpenRun(p, init, l);
    var run, rest := l + Line(k, v), Missing(Required(p, q.section), later, Done(q, q.section));
    SecondMerge(p, a, run, rest);
    ScanAgain(p, init);
    var r0 := Scan(p, START, q0.out);
    FlushNotes(p, q0, r0);
    ScanJoin(p, START, q0.out, Flush(p, q0));
    var f := Scan(p, START, a);
    JoinedKind(l, k, v);
    JoinedHeader(p, q0.section, l, k);
    EntryUnwanted(p, f.section, run);
    StepPlain(p, f, run);
    var r1 := Step(p, f, run);
    ScanLater(p, r1, q.section, later, Done(q, q.section));
    var r2 := Scan(p, r1, rest);
    DoneKept(p, f, r1, r2);
    FlushNoneIff(p, r2);
    assert r2.out + [] == a + [run] + rest;
  }

  lemma DoneKept(p: Profile, f: State, r1: State, r2: State)
    requires AllDone(p, f, f.section) && r1 == f.(out := r1.out) && r2.section == r1.section
      && forall s :: Done(r1, s) <= Done(r2, s)
    ensures AllDone(p, r2, r2.section)
  {
    assert Done(f, f.section) == Done(r1, f.section);
  }

  lemma HeaderUnwanted(p: Profile, section: string, l: string)
    requires KindOf(l).Header?
    ensures !Wanted(p, section, l)
  {}

  lemma StepPlain(p: Profile, st: State, line: string)
    requires ProperProfile(p) && !KindOf(line).Header? && !Wanted(p, st.section, line)
    ensures Step(p, st, line) == st.(out := st.out + [line])
  {}

  // ----- any other line at the open end

  /** Scanning later lines does not note a key that is not among them. */
  lemma LaterNotes(p: Profile, st: State, later: seq<string>, done: set<string>, k: string)
    requires ProperProfile(p) && Target(st.section) && forall x :: x in later ==> x in Required(p, st.section).values
    ensures var lines := Missing(Required(p, st.section), later, done);
      var r := Scan(p, st, lines);
      && r.out == st.out + lines && r.section == st.section
      && Done(r, st.section) == Done(st, st.section) + set x | x in later && x !in done
  {
    hide Scan, Missing, Required, ProperProfile;
    var ks := set x | x in later && x !in done;
    ScanMissingNotes(p, st, later, done);
    NotedSection(st, ks);
    SameDoneOut(Noted(st, ks), st.out + Missing(Required(p, st.section), later, done), st.section);
  }

  lemma SameDoneOut(st: State, out: seq<string>, s: string)
    ensures Done(st.(out := out), s) == Done(st, s)
  {}

  /** Each key stands once in its section's list. */
  lemma KeyOnce(p: Profile, section: string, k: string, m: nat)
    requires Separate(p) && m < |Required(p, section).keys| && Required(p, section).keys[m] == k
    ensures k !in Required(p, section).keys[m + 1..]
  {
    var g := Required(p, section);
    SeparateProper(p);
    RequiredProper(p, section);
    assert forall i :: 0 <= i < |g.keys| ==> g.keys[i] in g.keys && g.keys[i] in g.values;
    forall i | m < i < |g.keys| ensures g.keys[i] != k {
      assert Ending(g.keys[m]) != Ending(g.keys[i]);
    }
  }

  /**
    The second pass over the run-together line leaves it alone and is complete
    exactly when it had written the first missing key before.
  */
  lemma OpenPlain(p: Profile, init: seq<string>, l: string)
    requires Separate(p) && AllTerminated(init) && Open(l) && !KindOf(l).Header?
    requires var q0 := Scan(p, START, init);
      && !Wanted(p, q0.section, l) && Flush(p, Scan(p, START, init + [l])) != []
      && (Target(q0.section) ==>
            AllDone(p, Scan(p, START, q0.out), q0.section)
              || Done(Scan(p, START, q0.out), q0.section) == Done(q0, q0.section))
    ensures var q0 := Scan(p, START, init);
      Target(q0.section)
      && (Twice(p, init + [l]) <==> Strip(l) != "" && AllDone(p, Scan(p, START, q0.out), q0.section))
  {
    hide Step, Flush, Lines, Text, Terminated, Open, KindOf, Separate, KeyWord, Word, Missing, Required, Merge,
      Twice, AllTerminated, Scan, Done, Wanted, Strip, AllDone;
    SeparateProper(p);
    var q0 := Scan(p, START, init);
    var q := Scan(p, START, init + [l]);
    LastPlain(p, init, l);
    var a, k, v, later := OpenRun(p, init, l);
    assert a == q0.out;
    var run, rest := l + Line(k, v), Missing(Required(p, q.section), later, Done(q, q.section));
    SecondMerge(p, a, run, rest);
    ScanAgain(p, init);
    var r0 := Scan(p, START, q0.out);
    if Strip(l) == "" {
      OpenNotEmpty(l);
      BlankRun(p, q0, r0, l, k, v, later);
    } else {
      PlainRun(p, q0, r0, l, k, v, later);
    }
  }

  lemma LastPlain(p: Profile, init: seq<string>, l: string)
    requires ProperProfile(p) && !KindOf(l).Header? && !Wanted(p, Scan(p, START, init).section, l)
    ensures var q0, q := Scan(p, START, init), Scan(p, START, init + [l]);
      q.section == q0.section && q.out == q0.out + [l] && forall s :: Done(q, s) == Done(q0, s)
  {
    hide KindOf, Wanted, Flush;
    assert (init + [l])[..|init|] == init;
    StepPlain(p, Scan(p, START, init), l);
  }

  lemma OpenNotEmpty(l: string)
    requires Open(l)
    ensures l != ""
  {}

  /**
    A blank line before it makes the required line look different; the second pass
    puts that right, and the text gets shorter.
  */
  lemma BlankRun(p: Profile, q0: State, r0: State, l: string, k: string, v: string, later: seq<string>)
    requires ProperProfile(p) && Follows(q0, r0) && Target(q0.section) && l != "" && Strip(l) == ""
    requires k in Required(p, q0.section).values && v == Required(p, q0.section).values[k] && KeyWord(k) && Word(v)
    requires forall x :: x in later ==> x in Required(p, q0.section).values
    requires forall x :: x in Required(p, q0.section).values ==> x in Done(q0, q0.section) || x == k || x in later
    ensures var run := l + Line(k, v);
      var rest := Missing(Required(p, q0.section), later, Done(q0, q0.section));
      var r2 := Scan(p, Step(p, r0, run), rest);
      Text(r2.out + Flush(p, r2)) != Text(q0.out + [run] + rest)
  {
    hide Scan, Flush, Text, KindOf, KeyWord, Word, Missing, Step, Required, ProperProfile;
    var run := l + Line(k, v);
    BlankLine(l);
    JoinedKind(l, k, v);
    StepRequired(p, r0, run, k);
    var r1 := Step(p, r0, run);
    var rest := Missing(Required(p, q0.section), later, Done(q0, q0.section));
    LaterNotes(p, r1, later, Done(q0, q0.section), k);
    FollowsDone(q0, r0, q0.section);
    var r2 := Scan(p, r1, rest);
    AllAfter(p, q0, r0, r1, r2, k, later);
    FlushNoneIff(p, r2);
    assert r2.out + [] == q0.out + [Line(k, v)] + rest;
    LongerText(q0.out, Line(k, v), run, rest);
  }

  lemma AllAfter(p: Profile, q0: State, r0: State, r1: State, r2: State, k: string, later: seq<string>)
    requires r1.section == q0.section && r2.section == q0.section
    requires Done(q0, q0.section) <= Done(r0, q0.section) && Done(r1, q0.section) == Done(r0, q0.section) + {k}
    requires Done(r2, q0.section) == Done(r1, q0.section) + set x | x in later && x !in Done(q0, q0.section)
    requires forall x :: x in Required(p, q0.section).values ==> x in Done(q0, q0.section) || x == k || x in later
    ensures AllDone(p, r2, r2.section)
  {}

  lemma StepRequired(p: Profile, st: State, line: string, k: string)
    requires ProperProfile(p) && KindOf(line) == Entry(k) && k in Required(p, st.section).values && Target(st.section)
    ensures var r := Step(p, st, line);
      r.section == st.section && r.out == st.out + [Line(k, Required(p, st.section).values[k])]
      && Done(r, st.section) == Done(st, st.section) + {k}
  {}

  lemma LongerText(a: seq<string>, m: string, run: string, b: seq<string>)
    requires |run| > |m|
    ensures Text(a + [m] + b) != Text(a + [run] + b)
  {
    hide Text;
    assert a + [m] + b == a + ([m] + b) && a + [run] + b == a + ([run] + b);
    TextJoin(a, [m] + b);
    TextJoin(a, [run] + b);
    TextCons(m, b);
    TextCons(run, b);
    assert |Text(a + [m] + b)| == |Text(a)| + |m| + |Text(b)|;
    assert |Text(a + [run] + b)| == |Text(a)| + |run| + |Text(b)|;
  }

  /**
    Any other line swallows the required one; it is appended again unless it
    stands in an earlier section of the name.
  */
  lemma PlainRun(p: Profile, q0: State, r0: State, l: string, k: string, v: string, later: seq<string>)
    requires Separate(p) && Follows(q0, r0) && Target(q0.section) && Strip(l) != ""
    requires !KindOf(l).Header? && !Wanted(p, q0.section, l)
    requires k in Required(p, q0.section).values && v == Required(p, q0.section).values[k] && KeyWord(k) && Word(v)
      && k !in later
    requires forall x :: x in later ==> x in Required(p, q0.section).values
    requires forall x :: x in Required(p, q0.section).values ==> x in Done(q0, q0.section) || x == k || x in later
    requires k !in Done(q0, q0.section)
    requires AllDone(p, r0, q0.section) || Done(r0, q0.section) == Done(q0, q0.section)
    ensures var run := l + Line(k, v);
      var rest := Missing(Required(p, q0.section), later, Done(q0, q0.section));
      var r2 := Scan(p, Step(p, r0, run), rest);
      Text(r2.out + Flush(p, r2)) == Text(q0.out + [run] + rest) <==> AllDone(p, r0, q0.section)
  {
    hide Scan, Flush, Text, KindOf, KeyWord, Word, Missing, Step, Required, Separate, Wanted;
    SeparateProper(p);
    var run := l + Line(k, v);
    JoinedKind(l, k, v);
    JoinedUnwanted(p, q0.section, l, k);
    EntryUnwanted(p, r0.section, run);
    StepPlain(p, r0, run);
    var r1 := Step(p, r0, run);
    SameDoneOut(r0, r1.out, q0.section);
    var rest := Missing(Required(p, q0.section), later, Done(q0, q0.section));
    LaterNotes(p, r1, later, Done(q0, q0.section), k);
    var r2 := Scan(p, r1, rest);
    FlushNoneIff(p, r2);
    assert r2.out == q0.out + [run] + rest;
    if AllDone(p, r0, q0.section) {
      assert r2.out + [] == r2.out;
    } else {
      TextJoin(r2.out, Flush(p, r2));
      FlushTerminated(p, r2);
      SomeText(Flush(p, r2));
    }
  }

  lemma EntryUnwanted(p: Profile, section: string, l: string)
    requires KindOf(l).Entry? && KindOf(l).key !in Required(p, section).values
    ensures !KindOf(l).Header? && !Wanted(p, section, l)
  {}

  lemma SomeText(lines: seq<string>)
    requires lines != [] && AllTerminated(lines)
    ensures Text(lines) != ""
  {
    LineNotEmpty(lines[0]);
  }

  // ----- exactly when

  /** The condition for an open text, on its lines and what the first pass makes of them. */
  predicate SettledOpen(p: Profile, lines: seq<string>)
    requires ProperProfile(p) && lines != []
  {
    var init, l := lines[..|lines| - 1], lines[|lines| - 1];
    var q := Scan(p, START, lines);
    || KindOf(l).Header?
    || Wanted(p, SectionOf(init), l)
    || Flush(p, q) == []
    || (HeaderCount(lines, q.section) >= 2 && Strip(l) != "")
  }

  lemma LeftIff(p: Profile, init: seq<string>, l: string)
    requires ProperProfile(p) && !KindOf(l).Header?
    ensures var q0 := Scan(p, START, init);
      Target(q0.section) && Scan(p, START, init + [l]).section == q0.section ==>
        (HeaderCount(init + [l], q0.section) >= 2 ==> AllDone(p, Scan(p, START, q0.out), q0.section))
        && (HeaderCount(init + [l], q0.section) < 2 ==>
             Done(Scan(p, START, q0.out), q0.section) == Done(q0, q0.section))
  {
    hide Scan, KindOf, AllDone, Done, HeaderCount, SectionOf;
    var q0 := Scan(p, START, init);
    if Target(q0.section) {
      ScanTracks(p, init, q0.section);
      CountSnoc(init, l, q0.section);
    }
  }

  lemma OpenIff(p: Profile, init: seq<string>, l: string)
    requires Separate(p) && AllTerminated(init) && Open(l)
    ensures Twice(p, init + [l]) <==> SettledOpen(p, init + [l])
  {
    hide Flush, KindOf, Wanted, Twice, AllTerminated, Open, Strip, AllDone, HeaderCount, Step, Separate;
    SeparateProper(p);
    var lines := init + [l];
    assert lines[..|init|] == init;
    var q0 := Scan(p, START, init);
    var q := Scan(p, START, lines);
    ScanSound(p, init);
    if Wanted(p, q0.section, l) || Flush(p, q) == [] {
      ClosedEnd(p, init, l);
    } else if KindOf(l).Header? {
      OpenHeader(p, init, l);
    } else {
      StepPlain(p, q0, l);
      LeftIff(p, init, l);
      OpenPlain(p, init, l);
      if HeaderCount(lines, q0.section) < 2 {
        NotAllDone(p, q0, q);
      }
    }
  }

  /** The first pass has not written every key when it appends one. */
  lemma NotAllDone(p: Profile, q0: State, q: State)
    requires ProperProfile(p) && q == q0.(out := q.out) && Flush(p, q) != []
    ensures forall r: State :: Done(r, q0.section) == Done(q0, q0.section) ==> !AllDone(p, r, q0.section)
  {
    FlushNoneIff(p, q);
    SameDoneOut(q0, q.out, q0.section);
  }

  /** Rewriting twice is rewriting once exactly for texts that end with a newline, are empty, or meet the condition. */
  lemma RewriteTwiceIff(p: Profile, t: string)
    requires Separate(p)
    ensures ProperProfile(p)
    ensures Rewrite(p, Rewrite(p, t)) == Rewrite(p, t) <==> !OpenEnded(t) || SettledOpen(p, Lines(t))
  {
    hide Separate, Lines, Text, Merge, SettledOpen, Terminated, Open;
    SeparateProper(p);
    if OpenEnded(t) {
      OpenLines(t);
      var lines := Lines(t);
      assert lines == lines[..|lines| - 1] + [lines[|lines| - 1]];
      OpenIff(p, lines[..|lines| - 1], lines[|lines| - 1]);
    } else {
      RewriteTwice(p, t);
    }
  }

  /** In particular for the sled's rewrite and for the spectator's. */
  lemma BothRewritesTwiceIff(t: string)
    ensures ProperProfile(PURE) && ProperProfile(LOW)
    ensures OpenEnded(t) ==> Lines(t) != []
    ensures Rewrite(PURE, Rewrite(PURE, t)) == Rewrite(PURE, t) <==> !OpenEnded(t) || SettledOpen(PURE, Lines(t))
    ensures Rewrite(LOW, Rewrite(LOW, t)) == Rewrite(LOW, t) <==> !OpenEnded(t) || SettledOpen(LOW, Lines(t))
  {
    hide Separate, SettledOpen, Rewrite, Lines;
    ProfilesSeparate();
    SeparateProper(PURE);
    SeparateProper(LOW);
    if OpenEnded(t) {
      OpenLines(t);
    }
    RewriteTwiceIff(PURE, t);
    RewriteTwiceIff(LOW, t);
  }
}
