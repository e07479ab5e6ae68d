/** The two section-aware rewrites of video.ini: the Pure HDR patch and the spectator's low-quality settings. */
module IniMerge {

  // ----- reading a line

  predicate Blank(c: char) {
    c == ' ' || '\t' <= c <= '\r' || '\U{1C}' <= c <= '\U{1F}'
  }

  function StripLeft(s: string): string {
    if s != "" && Blank(s[0]) then StripLeft(s[1..]) else s
  }

  function StripRight(s: string): string {
    if s != "" && Blank(s[|s| - 1]) then StripRight(s[..|s| - 1]) else s
  }

  function Strip(s: string): string {
    StripRight(StripLeft(s))
  }

  function UpperChar(c: char): char {
    if 'a' <= c <= 'z' then c - 'a' + 'A' else c
  }

  function Upper(s: string): string {
    seq(|s|, i requires 0 <= i < |s| => UpperChar(s[i]))
  }

  function BeforeEquals(s: string): string {
    if s == "" || s[0] == '=' then "" else [s[0]] + BeforeEquals(s[1..])
  }

  /** What the rewrites see in a line. */
  datatype Kind = Header(section: string) | Entry(key: string) | Other

  function KindOf(line: string): Kind {
    var s := Strip(line);
    if |s| >= 2 && s[0] == '[' && s[|s| - 1] == ']' then Header(Upper(s[1..|s| - 1]))
    else if '=' in s then Entry(Upper(Strip(BeforeEquals(s))))
    else Other
  }

  // ----- required settings

  /** Keys in the order they are written, and the value of each. */
  datatype Settings = Settings(keys: seq<string>, values: map<string, string>)

  const POST_PROCESS := "POST_PROCESS"
  const VIDEO := "VIDEO"

  const NONE := Settings([], map[])

  function Dict(pairs: seq<(string, string)>): Settings {
    if pairs == [] then NONE
    else
      var before, last := Dict(pairs[..|pairs| - 1]), pairs[|pairs| - 1];
      Settings(before.keys + [last.0], before.values[last.0 := last.1])
  }

  const LEGACY_HDR := ("DISABLE_LEGACY_HDR", "1")

  const POST_PAIRS := [
    ("DOF", "5"), ("ENABLED", "1"), ("FILTER", "pureHDR"), ("FXAA", "1"),
    ("GLARE", "5"), ("HEAT_SHIMMER", "1"), ("QUALITY", "5"), ("RAYS_OF_GOD", "1")]

  const SHADOWS := [("SHADOW_MAP_SIZE", "512"), ("SHADOW_MAP_SIZE2", "512"), ("SHADOW_MAP_SIZE3", "256")]

  const EFFECTS := [
    ("REFLECTION_RESOLUTION", "0"), ("REFLECTION_DISTANCE", "0"), ("MOTION_BLUR", "0"), ("DEPTH_OF_FIELD", "0"),
    ("ANISOTROPIC", "4")]

  const WINDOWED := [("WIDTH", "1920"), ("HEIGHT", "1080"), ("FULLSCREEN", "0"), ("BORDERLESS", "1")]

  const LOW_PAIRS := SHADOWS + EFFECTS + WINDOWED + [LEGACY_HDR]

  /** A rewrite: what each section requires, and whether keys added on leaving [VIDEO] count as written. */
  datatype Profile = Profile(post: Settings, video: Settings, once: bool)

  const PURE := Profile(Dict(POST_PAIRS), Dict([LEGACY_HDR]), true)
  const LOW := Profile(Dict(POST_PAIRS), Dict(LOW_PAIRS), false)

  predicate KeyChar(c: char) {
    'A' <= c <= 'Z' || '0' <= c <= '9' || c == '_'
  }

  predicate WordChar(c: char) {
    KeyChar(c) || 'a' <= c <= 'z'
  }

  predicate KeyWord(s: string) {
    s != "" && forall i :: 0 <= i < |s| ==> KeyChar(s[i])
  }

  predicate Word(s: string) {
    s != "" && forall i :: 0 <= i < |s| ==> WordChar(s[i])
  }

  ghost predicate Proper(g: Settings) {
    && (forall k :: k in g.keys <==> k in g.values)
    && (forall k :: k in g.values ==> KeyWord(k) && Word(g.values[k]))
  }

  ghost predicate ProperProfile(p: Profile) {
    Proper(p.post) && Proper(p.video)
  }

  predicate ProperPair(pair: (string, string)) {
    KeyWord(pair.0) && Word(pair.1)
  }

  lemma {:induction false} DictProper(pairs: seq<(string, string)>)
    requires AllProper(pairs)
    ensures Proper(Dict(pairs))
  {
    if pairs != [] {
      DictProper(pairs[..|pairs| - 1]);
    }
  }

  lemma ProfilesProper()
    ensures ProperProfile(PURE) && ProperProfile(LOW)
  {
    hide Dict, Proper, ProperPair;
    PostPairs();
    LowPairs();
    DictProper(POST_PAIRS);
    DictProper(LOW_PAIRS);
    DictProper([LEGACY_HDR]);
  }

  lemma PostPairs()
    ensures forall i :: 0 <= i < |POST_PAIRS| ==> ProperPair(POST_PAIRS[i])
  {}

  ghost predicate AllProper(pairs: seq<(string, string)>) {
    forall i :: 0 <= i < |pairs| ==> ProperPair(pairs[i])
  }

  lemma ShadowPairs()
    ensures forall i :: 0 <= i < |SHADOWS| ==> ProperPair(SHADOWS[i])
  {}

  lemma EffectPairs()
    ensures forall i :: 0 <= i < |EFFECTS| ==> ProperPair(EFFECTS[i])
  {}

  lemma WindowPairs()
    ensures ProperPair(LEGACY_HDR)
    ensures forall i :: 0 <= i < |WINDOWED| ==> ProperPair(WINDOWED[i])
  {}

  lemma JoinedPairs(a: seq<(string, string)>, b: seq<(string, string)>)
    requires AllProper(a) && AllProper(b)
    ensures AllProper(a + b)
  {
    hide ProperPair;
  }

  lemma LowPairs()
    ensures AllProper([LEGACY_HDR]) && AllProper(LOW_PAIRS)
  {
    hide ProperPair, SHADOWS, EFFECTS, WINDOWED;
    ShadowPairs();
    EffectPairs();
    WindowPairs();
    JoinedPairs(SHADOWS, EFFECTS);
    JoinedPairs(SHADOWS + EFFECTS, WINDOWED);
    JoinedPairs(SHADOWS + EFFECTS + WINDOWED, [LEGACY_HDR]);
  }

  function Line(k: string, v: string): string {
    k + "=" + v + "\n"
  }

  lemma StripRightEnd(s: string)
    requires s != "" && !Blank(s[|s| - 1])
    ensures StripRight(s + "\n") == s
  {
    var t := s + "\n";
    assert t[..|t| - 1] == s && Blank(t[|t| - 1]);
  }

  lemma {:induction false} BeforeEqualsOf(k: string, rest: string)
    requires '=' !in k
    ensures BeforeEquals(k + "=" + rest) == k
  {
    if k != "" {
      assert (k + "=" + rest)[1..] == k[1..] + "=" + rest;
      BeforeEqualsOf(k[1..], rest);
    }
  }

  /** A line the rewrite produces reads back as an entry for its own key. */
  lemma LineKind(k: string, v: string)
    requires KeyWord(k) && Word(v)
    ensures KindOf(Line(k, v)) == Entry(k)
  {
    var body := k + "=" + v;
    assert Line(k, v) == body + "\n" && body[0] == k[0] && body[|body| - 1] == v[|v| - 1] && body[|k|] == '=';
    StripRightEnd(body);
    assert StripLeft(Line(k, v)) == Line(k, v);
    BeforeEqualsOf(k, v);
    assert Strip(k) == k;
    assert Upper(k) == k;
  }

  // ----- the rewrite

  function Required(p: Profile, section: string): Settings {
    if section == POST_PROCESS then p.post else if section == VIDEO then p.video else NONE
  }

  /** The entry lines of the keys not written yet. */
  function Missing(g: Settings, keys: seq<string>, done: set<string>): seq<string>
    requires forall k :: k in keys ==> k in g.values
  {
    if keys == [] then []
    else
      var before, k := Missing(g, keys[..|keys| - 1], done), keys[|keys| - 1];
      if k in done then before else before + [Line(k, g.values[k])]
  }

  /** The section being read, the keys written under each target section, and the lines so far. */
  datatype State = State(section: string, post: set<string>, video: set<string>, out: seq<string>)

  const START := State("", {}, {}, [])

  function Done(st: State, section: string): set<string> {
    if section == POST_PROCESS then st.post else if section == VIDEO then st.video else {}
  }

  /** What is appended before the section is left. */
  function Flush(p: Profile, st: State): seq<string>
    requires ProperProfile(p)
  {
    Missing(Required(p, st.section), Required(p, st.section).keys, Done(st, st.section))
  }

  function Step(p: Profile, st: State, line: string): State
    requires ProperProfile(p)
  {
    match KindOf(line)
    case Header(section) =>
      State(section, st.post, if p.once && st.section == VIDEO then st.video + p.video.values.Keys else st.video,
            st.out + Flush(p, st) + [line])
    case Entry(k) =>
      var g := Required(p, st.section);
      if k in g.values then
        State(st.section, if st.section == POST_PROCESS then st.post + {k} else st.post,
              if st.section == VIDEO then st.video + {k} else st.video, st.out + [Line(k, g.values[k])])
      else st.(out := st.out + [line])
    case Other => st.(out := st.out + [line])
  }

  function Scan(p: Profile, st: State, lines: seq<string>): State
    requires ProperProfile(p)
  {
    if lines == [] then st else Step(p, Scan(p, st, lines[..|lines| - 1]), lines[|lines| - 1])
  }

  function Merge(p: Profile, lines: seq<string>): seq<string>
    requires ProperProfile(p)
  {
    var st := Scan(p, START, lines);
    st.out + Flush(p, st)
  }

  lemma {:induction false} ScanJoin(p: Profile, st: State, a: seq<string>, b: seq<string>)
    requires ProperProfile(p)
    ensures Scan(p, st, a + b) == Scan(p, Scan(p, st, a), b)
  {
    hide Step;
    if b == [] {
      assert a + b == a;
    } else {
      assert (a + b)[..|a + b| - 1] == a + b[..|b| - 1];
      ScanJoin(p, st, a, b[..|b| - 1]);
    }
  }

  // ----- idempotence

  predicate Target(section: string) {
    section == POST_PROCESS || section == VIDEO
  }

  /** Keys noted under the section being read. */
  function Noted(st: State, keys: set<string>): State {
    if st.section == POST_PROCESS then st.(post := st.post + keys)
    else if st.section == VIDEO then st.(video := st.video + keys)
    else st
  }

  lemma StepWanted(p: Profile, st: State, k: string)
    requires ProperProfile(p) && k in Required(p, st.section).values
    ensures var line := Line(k, Required(p, st.section).values[k]);
      Step(p, st, line) == Noted(st, {k}).(out := st.out + [line])
  {
    hide KindOf;
    RequiredProper(p, st.section);
    LineKind(k, Required(p, st.section).values[k]);
  }

  /** Scanning lines of missing keys repeats them and notes exactly their keys. */
  lemma {:induction false} ScanMissingNotes(p: Profile, st: State, keys: seq<string>, done: set<string>)
    requires ProperProfile(p) && forall k :: k in keys ==> k in Required(p, st.section).values
    ensures var lines := Missing(Required(p, st.section), keys, done);
      Scan(p, st, lines) == Noted(st, set k | k in keys && k !in done).(out := st.out + lines)
  {
    hide Step, Required, ProperProfile;
    var g := Required(p, st.section);
    var ks := set k | k in keys && k !in done;
    if keys == [] {
      assert ks == {};
      NotedNone(st);
      assert st.out + [] == st.out;
    } else {
      var init, k := keys[..|keys| - 1], keys[|keys| - 1];
      assert keys == init + [k];
      ScanMissingNotes(p, st, init, done);
      var before := Missing(g, init, done);
      var kb := set m | m in init && m !in done;
      var at := Scan(p, st, before);
      NotedSection(st, kb);
      if k !in done {
        var line := Line(k, g.values[k]);
        ScanJoin(p, st, before, [line]);
        ScanOne(p, at, line);
        StepWanted(p, at, k);
        NotedTwice(st, kb, k, at);
        assert ks == kb + {k};
        assert st.out + before + [line] == st.out + (before + [line]);
      } else {
        assert ks == kb;
      }
    }
  }

  lemma NotedNone(st: State)
    ensures Noted(st, {}) == st
  {}

  lemma NotedSection(st: State, keys: set<string>)
    ensures Noted(st, keys).section == st.section && Noted(st, keys).out == st.out
    ensures forall s :: s != st.section ==> Done(Noted(st, keys), s) == Done(st, s)
    ensures Target(st.section) ==> Done(Noted(st, keys), st.section) == Done(st, st.section) + keys
  {}

  lemma NotedTwice(st: State, keys: set<string>, k: string, at: State)
    requires at == Noted(st, keys).(out := at.out)
    ensures forall out :: Noted(at, {k}).(out := out) == Noted(st, keys + {k}).(out := out)
  {
    assert st.post + keys + {k} == st.post + (keys + {k});
    assert st.video + keys + {k} == st.video + (keys + {k});
  }

  lemma NotedGrows(st: State, keys: set<string>)
    ensures forall s, out :: Done(st, s) <= Done(Noted(st, keys).(out := out), s)
    ensures Noted(st, keys).section == st.section
  {}

  lemma {:induction false} NothingMissing(g: Settings, keys: seq<string>, done: set<string>)
    requires forall k :: k in keys ==> k in g.values && k in done
    ensures Missing(g, keys, done) == []
  {
    if keys != [] {
      NothingMissing(g, keys[..|keys| - 1], done);
    }
  }

  /** Reading the appended lines back leaves nothing to append. */
  lemma ScanFlush(p: Profile, q: State, r: State)
    requires ProperProfile(p) && Follows(q, r)
    ensures var s := Scan(p, r, Flush(p, q));
      s.out == r.out + Flush(p, q) && s.section == q.section && q.post <= s.post && q.video <= s.video
        && Flush(p, s) == []
  {
    hide Scan, Missing, Step;
    var g := Required(p, q.section);
    RequiredProper(p, q.section);
    ScanMissingNotes(p, r, g.keys, Done(q, q.section));
    var s := Scan(p, r, Flush(p, q));
    var ks := set k | k in g.keys && k !in Done(q, q.section);
    NotedSection(r, ks);
    NoKeysElsewhere(p, q.section);
    assert forall k :: k in g.keys ==> k in Done(s, q.section);
    NothingMissing(g, g.keys, Done(s, q.section));
  }

  lemma NoKeysElsewhere(p: Profile, section: string)
    ensures !Target(section) ==> Required(p, section).keys == []
  {}

  /** The second pass stands where the first one stood and has written no fewer keys. */
  ghost predicate Follows(q: State, r: State) {
    r.out == q.out && r.section == q.section && q.post <= r.post && q.video <= r.video
  }

  lemma HeaderAgain(p: Profile, q: State, r: State, line: string)
    requires ProperProfile(p) && Follows(q, r) && KindOf(line).Header?
    ensures Step(p, q, line).out == q.out + (Flush(p, q) + [line])
    ensures Follows(Step(p, q, line), Scan(p, r, Flush(p, q) + [line]))
  {
    hide Flush, Required, Scan, KindOf, ProperProfile;
    ScanFlush(p, q, r);
    ScanJoin(p, r, Flush(p, q), [line]);
    ScanOne(p, Scan(p, r, Flush(p, q)), line);
  }

  lemma EntryAgain(p: Profile, q: State, r: State, line: string)
    requires ProperProfile(p) && Follows(q, r)
    requires KindOf(line).Entry? && KindOf(line).key in Required(p, q.section).values
    ensures var k := KindOf(line).key; var l := Line(k, Required(p, q.section).values[k]);
      Step(p, q, line).out == q.out + [l] && Follows(Step(p, q, line), Scan(p, r, [l]))
  {
    hide Flush, Required, Scan, KindOf, KeyWord, Word;
    var k := KindOf(line).key;
    var l := Line(k, Required(p, q.section).values[k]);
    RequiredProper(p, q.section);
    LineKind(k, Required(p, q.section).values[k]);
    ScanOne(p, r, l);
  }

  lemma PlainAgain(p: Profile, q: State, r: State, line: string)
    requires ProperProfile(p) && Follows(q, r)
    requires !KindOf(line).Header? && (KindOf(line).Entry? ==> KindOf(line).key !in Required(p, q.section).values)
    ensures Step(p, q, line).out == q.out + [line] && Follows(Step(p, q, line), Scan(p, r, [line]))
  {
    hide Flush, Required, Scan, KindOf, ProperProfile;
    ScanOne(p, r, line);
  }

  /** The lines one line turns into, read back, lead where the line led. */
  lemma StepAgain(p: Profile, q: State, r: State, line: string) returns (added: seq<string>)
    requires ProperProfile(p) && Follows(q, r)
    ensures Step(p, q, line).out == q.out + added
    ensures Follows(Step(p, q, line), Scan(p, r, added))
  {
    hide Flush, Required, Scan, KindOf, Step, Follows, ProperProfile;
    if KindOf(line).Header? {
      HeaderAgain(p, q, r, line);
      added := Flush(p, q) + [line];
    } else if KindOf(line).Entry? && KindOf(line).key in Required(p, q.section).values {
      EntryAgain(p, q, r, line);
      added := [Line(KindOf(line).key, Required(p, q.section).values[KindOf(line).key])];
    } else {
      PlainAgain(p, q, r, line);
      added := [line];
    }
  }

  lemma RequiredProper(p: Profile, section: string)
    requires ProperProfile(p)
    ensures Proper(Required(p, section))
  {}

  lemma ScanOne(p: Profile, st: State, line: string)
    requires ProperProfile(p)
    ensures Scan(p, st, [line]) == Step(p, st, line)
  {
    hide Step;
    assert [line][..0] == [] && Scan(p, st, []) == st;
  }

  lemma {:induction false} ScanAgain(p: Profile, lines: seq<string>)
    requires ProperProfile(p)
    ensures Follows(Scan(p, START, lines), Scan(p, START, Scan(p, START, lines).out))
  {
    hide Step;
    if lines != [] {
      var init, line := lines[..|lines| - 1], lines[|lines| - 1];
      ScanAgain(p, init);
      var q := Scan(p, START, init);
      var r := Scan(p, START, q.out);
      var added := StepAgain(p, q, r, line);
      ScanJoin(p, START, q.out, added);
    }
  }

  /** A second pass over the lines of the first changes nothing. */
  lemma MergeTwice(p: Profile, lines: seq<string>)
    requires ProperProfile(p)
    ensures Merge(p, Merge(p, lines)) == Merge(p, lines)
  {
    hide Step, Flush;
    ScanAgain(p, lines);
    var q := Scan(p, START, lines);
    var r := Scan(p, START, q.out);
    ScanFlush(p, q, r);
    ScanJoin(p, START, q.out, Flush(p, q));
  }

  // ----- what is kept and what is delivered

  /** The section a line after these belongs to. */
  function SectionOf(lines: seq<string>): string {
    if lines == [] then ""
    else match KindOf(lines[|lines| - 1])
      case Header(section) => section
      case _ => SectionOf(lines[..|lines| - 1])
  }

  predicate Wanted(p: Profile, section: string, line: string) {
    KindOf(line).Entry? && KindOf(line).key in Required(p, section).values
  }

  /** Every line but the required entries of the target sections, in order. */
  function Rest(p: Profile, lines: seq<string>): seq<string> {
    if lines == [] then []
    else
      var init, line := lines[..|lines| - 1], lines[|lines| - 1];
      Rest(p, init) + if Wanted(p, SectionOf(init), line) then [] else [line]
  }

  /** Every required entry standing in its section has the required form. */
  ghost predicate Settled(p: Profile, lines: seq<string>) {
    forall i :: 0 <= i < |lines| && Wanted(p, SectionOf(lines[..i]), lines[i]) ==>
      var k := KindOf(lines[i]).key; lines[i] == Line(k, Required(p, SectionOf(lines[..i])).values[k])
  }

  /** The section holds the required line of the key. */
  ghost predicate Delivered(p: Profile, lines: seq<string>, section: string, k: string) {
    k in Required(p, section).values &&
    exists i ::
      0 <= i < |lines| && SectionOf(lines[..i]) == section && lines[i] == Line(k, Required(p, section).values[k])
  }

  function RequiredLine(p: Profile, section: string, k: string): string
    requires k in Required(p, section).values
  {
    Line(k, Required(p, section).values[k])
  }

  lemma DeliveredSnoc(p: Profile, lines: seq<string>, line: string, section: string, k: string)
    ensures Delivered(p, lines, section, k) ==> Delivered(p, lines + [line], section, k)
    ensures SectionOf(lines) == section && k in Required(p, section).values && line == RequiredLine(p, section, k) ==>
      Delivered(p, lines + [line], section, k)
  {
    hide SectionOf;
    var more := lines + [line];
    assert forall i :: 0 <= i < |lines| ==> more[..i] == lines[..i] && more[i] == lines[i];
    assert more[..|lines|] == lines && more[|lines|] == line;
  }

  lemma SettledSnoc(p: Profile, lines: seq<string>, line: string)
    requires Settled(p, lines)
    requires Wanted(p, SectionOf(lines), line) ==>
      line == Line(KindOf(line).key, Required(p, SectionOf(lines)).values[KindOf(line).key])
    ensures Settled(p, lines + [line])
  {
    hide SectionOf;
    var more := lines + [line];
    assert forall i :: 0 <= i < |lines| ==> more[..i] == lines[..i] && more[i] == lines[i];
    assert more[..|lines|] == lines && more[|lines|] == line;
  }

  lemma SnocForms(p: Profile, lines: seq<string>, line: string)
    ensures SectionOf(lines + [line]) == if KindOf(line).Header? then KindOf(line).section else SectionOf(lines)
    ensures Rest(p, lines + [line]) == Rest(p, lines) + if Wanted(p, SectionOf(lines), line) then [] else [line]
  {
    assert (lines + [line])[..|lines|] == lines;
  }

  /** Where the first pass stands after some lines. */
  ghost predicate Sound(p: Profile, lines: seq<string>, q: State) {
    && SectionOf(q.out) == q.section == SectionOf(lines)
    && Rest(p, q.out) == Rest(p, lines)
    && Settled(p, q.out)
    && (forall section, k :: k in Done(q, section) && k in Required(p, section).values ==>
         Delivered(p, q.out, section, k))
  }

  /** Appending the missing lines: same section, nothing else changed, every key there. */
  lemma {:induction false} AppendMissing(p: Profile, out: seq<string>, section: string, keys: seq<string>,
      done: set<string>)
    requires ProperProfile(p) && SectionOf(out) == section && Settled(p, out)
    requires forall k :: k in keys ==> k in Required(p, section).values
    ensures var more := out + Missing(Required(p, section), keys, done);
      && SectionOf(more) == section && Rest(p, more) == Rest(p, out) && Settled(p, more)
      && (forall k :: k in keys && k !in done ==> Delivered(p, more, section, k))
      && (forall s, k :: Delivered(p, out, s, k) ==> Delivered(p, more, s, k))
  {
    hide KindOf, KeyWord, Word, Settled, Delivered, SectionOf, Rest;
    var g := Required(p, section);
    if keys == [] {
      assert out + Missing(g, keys, done) == out;
    } else {
      var init, k := keys[..|keys| - 1], keys[|keys| - 1];
      AppendMissing(p, out, section, init, done);
      var more := out + Missing(g, init, done);
      assert keys == init + [k];
      if k !in done {
        var line := Line(k, g.values[k]);
        assert out + Missing(g, keys, done) == more + [line];
        AppendLine(p, more, section, k);
      } else {
        assert Missing(g, keys, done) == Missing(g, init, done);
      }
    }
  }

  lemma AppendLine(p: Profile, out: seq<string>, section: string, k: string)
    requires ProperProfile(p) && SectionOf(out) == section && Settled(p, out) && k in Required(p, section).values
    ensures var more := out + [Line(k, Required(p, section).values[k])];
      && SectionOf(more) == section && Rest(p, more) == Rest(p, out) && Settled(p, more)
      && Delivered(p, more, section, k)
      && (forall s, m :: Delivered(p, out, s, m) ==> Delivered(p, more, s, m))
  {
    hide KindOf, KeyWord, Word, Settled, Delivered, SectionOf, Rest;
    RequiredProper(p, section);
    var line := Line(k, Required(p, section).values[k]);
    LineKind(k, Required(p, section).values[k]);
    SnocForms(p, out, line);
    SettledSnoc(p, out, line);
    DeliveredSnoc(p, out, line, section, k);
    forall s, m | Delivered(p, out, s, m) ensures Delivered(p, out + [line], s, m) {
      DeliveredSnoc(p, out, line, s, m);
    }
  }

  lemma FlushSound(p: Profile, lines: seq<string>, q: State)
    requires ProperProfile(p) && Sound(p, lines, q)
    ensures var more := q.out + Flush(p, q);
      && Sound(p, lines, q.(out := more))
      && (forall k :: k in Required(p, q.section).values ==> Delivered(p, more, q.section, k))
      && (forall s, k :: Delivered(p, q.out, s, k) ==> Delivered(p, more, s, k))
  {
    hide SectionOf, Rest, Settled, Delivered, KeyWord, Word, Missing;
    RequiredProper(p, q.section);
    var g := Required(p, q.section);
    AppendMissing(p, q.out, q.section, g.keys, Done(q, q.section));
  }

  lemma KeepLine(p: Profile, lines: seq<string>, q: State, line: string)
    requires ProperProfile(p) && Sound(p, lines, q) && !Wanted(p, q.section, line)
    ensures var section := if KindOf(line).Header? then KindOf(line).section else q.section;
      Sound(p, lines + [line], q.(section := section, out := q.out + [line]))
    ensures forall s, k :: Delivered(p, q.out, s, k) ==> Delivered(p, q.out + [line], s, k)
  {
    hide SectionOf, Rest, Settled, Delivered, KeyWord, Word, Wanted, Required, KindOf;
    SnocForms(p, lines, line);
    SnocForms(p, q.out, line);
    SettledSnoc(p, q.out, line);
    forall s, k | Delivered(p, q.out, s, k) ensures Delivered(p, q.out + [line], s, k) {
      DeliveredSnoc(p, q.out, line, s, k);
    }
    var section := if KindOf(line).Header? then KindOf(line).section else q.section;
    var next := q.(section := section, out := q.out + [line]);
    assert forall s :: Done(next, s) == Done(q, s);
  }

  lemma StepSound(p: Profile, lines: seq<string>, q: State, line: string)
    requires ProperProfile(p) && Sound(p, lines, q)
    ensures Sound(p, lines + [line], Step(p, q, line))
    ensures forall s, k :: Delivered(p, q.out, s, k) ==> Delivered(p, Step(p, q, line).out, s, k)
    ensures KindOf(line).Header? ==> forall k :: k in Required(p, q.section).values ==>
      Delivered(p, Step(p, q, line).out, q.section, k)
  {
    hide SectionOf, Rest, Settled, Delivered, KeyWord, Word, KindOf, Flush;
    match KindOf(line)
    case Header(section) =>
      FlushSound(p, lines, q);
      KeepLine(p, lines, q.(out := q.out + Flush(p, q)), line);
    case Entry(k) =>
      if k in Required(p, q.section).values {
        AppendLine(p, q.out, q.section, k);
        SnocForms(p, lines, line);
      } else {
        KeepLine(p, lines, q, line);
      }
    case Other => KeepLine(p, lines, q, line);
  }

  predicate HasHeader(lines: seq<string>, section: string) {
    exists i :: 0 <= i < |lines| && KindOf(lines[i]) == Header(section)
  }

  lemma {:induction false} ScanSound(p: Profile, lines: seq<string>)
    requires ProperProfile(p)
    ensures Sound(p, lines, Scan(p, START, lines))
    ensures var q := Scan(p, START, lines);
      forall section, k :: HasHeader(lines, section) && section != q.section && k in Required(p, section).values ==>
        Delivered(p, q.out, section, k)
  {
    hide Step, SectionOf, Rest, Settled, Delivered, KeyWord, Word, KindOf, Wanted;
    if lines == [] {
      StartSound(p);
    } else {
      var init, line := lines[..|lines| - 1], lines[|lines| - 1];
      assert lines == init + [line];
      ScanSound(p, init);
      var q := Scan(p, START, init);
      StepSound(p, init, q, line);
      SnocForms(p, init, line);
      forall section, k | HasHeader(lines, section) && section != Step(p, q, line).section
        && k in Required(p, section).values
        ensures Delivered(p, Step(p, q, line).out, section, k)
      {
        HeaderSnoc(init, line, section);
      }
    }
  }

  lemma HeaderSnoc(lines: seq<string>, line: string, section: string)
    ensures HasHeader(lines + [line], section) <==> HasHeader(lines, section) || KindOf(line) == Header(section)
  {
    hide KindOf;
    var more := lines + [line];
    assert forall i :: 0 <= i < |lines| ==> more[i] == lines[i];
    assert more[|lines|] == line;
  }

  lemma StartSound(p: Profile)
    ensures Sound(p, [], START)
  {}

  /** Lines that are not required entries of a target section are kept in order, and nothing else is kept. */
  lemma MergeKeepsRest(p: Profile, lines: seq<string>)
    requires ProperProfile(p)
    ensures Rest(p, Merge(p, lines)) == Rest(p, lines)
  {
    hide Flush, Rest, Step;
    ScanSound(p, lines);
    FlushSound(p, lines, Scan(p, START, lines));
  }

  /**
    Whenever a section exists it holds every required line, and no entry of a
    required key in it has any other form.
  */
  lemma MergeDelivers(p: Profile, lines: seq<string>, section: string, k: string)
    requires ProperProfile(p) && k in Required(p, section).values
    ensures HasHeader(lines, section) ==> Delivered(p, Merge(p, lines), section, k)
    ensures Settled(p, Merge(p, lines))
  {
    hide Flush, Settled, Step, Delivered;
    ScanSound(p, lines);
    FlushSound(p, lines, Scan(p, START, lines));
  }

  // ----- the file

  function Head(t: string): (n: nat)
    ensures n <= |t| && (t != "" ==> n > 0)
  {
    if t == "" then 0 else if t[0] == '\n' then 1 else 1 + Head(t[1..])
  }

  /** The lines of a text, each with its newline. */
  function Lines(t: string): seq<string> {
    if t == "" then [] else [t[..Head(t)]] + Lines(t[Head(t)..])
  }

  function Text(lines: seq<string>): string {
    if lines == [] then "" else lines[0] + Text(lines[1..])
  }

  predicate Terminated(line: string) {
    line != "" && line[|line| - 1] == '\n' && '\n' !in line[..|line| - 1]
  }

  predicate AllTerminated(lines: seq<string>) {
    forall i :: 0 <= i < |lines| ==> Terminated(lines[i])
  }

  lemma {:induction false} HeadOf(line: string, t: string)
    requires Terminated(line)
    ensures Head(line + t) == |line|
  {
    if |line| > 1 {
      assert (line + t)[1..] == line[1..] + t;
      assert line[0] == line[..|line| - 1][0];
      assert line[1..][..|line| - 2] == line[..|line| - 1][1..];
      HeadOf(line[1..], t);
    }
  }

  lemma {:induction false} LinesOfText(lines: seq<string>)
    requires AllTerminated(lines)
    ensures Lines(Text(lines)) == lines
  {
    if lines != [] {
      HeadOf(lines[0], Text(lines[1..]));
      LinesOfText(lines[1..]);
      var t := Text(lines);
      assert t[..|lines[0]|] == lines[0] && t[|lines[0]|..] == Text(lines[1..]);
    }
  }

  lemma {:induction false} HeadTerminated(t: string)
    requires t != "" && t[|t| - 1] == '\n'
    ensures Terminated(t[..Head(t)])
  {
    if t[0] != '\n' {
      HeadTerminated(t[1..]);
      var h := Head(t[1..]);
      assert t[..1 + h] == [t[0]] + t[1..][..h];
      assert t[..1 + h][..h] == [t[0]] + t[1..][..h][..h - 1];
    }
  }

  lemma {:induction false} LinesTerminated(t: string)
    requires t == "" || t[|t| - 1] == '\n'
    ensures AllTerminated(Lines(t))
  {
    if t != "" {
      HeadTerminated(t);
      LinesTerminated(t[Head(t)..]);
    }
  }

  lemma LineTerminated(k: string, v: string)
    requires Word(k) && Word(v)
    ensures Terminated(Line(k, v))
  {
    var l := Line(k, v);
    assert l[..|l| - 1] == k + "=" + v;
  }

  lemma {:induction false} MissingTerminated(g: Settings, keys: seq<string>, done: set<string>)
    requires Proper(g) && forall k :: k in keys ==> k in g.values
    ensures AllTerminated(Missing(g, keys, done))
  {
    hide Terminated;
    if keys != [] {
      MissingTerminated(g, keys[..|keys| - 1], done);
      var k := keys[|keys| - 1];
      LineTerminated(k, g.values[k]);
    }
  }

  lemma {:induction false} ScanTerminated(p: Profile, lines: seq<string>)
    requires ProperProfile(p) && AllTerminated(lines)
    ensures AllTerminated(Scan(p, START, lines).out)
  {
    hide Terminated, KindOf, KeyWord, Word, Missing, Required;
    if lines != [] {
      var init, line := lines[..|lines| - 1], lines[|lines| - 1];
      ScanTerminated(p, init);
      var q := Scan(p, START, init);
      RequiredProper(p, q.section);
      var g := Required(p, q.section);
      MissingTerminated(g, g.keys, Done(q, q.section));
      if KindOf(line).Entry? && KindOf(line).key in g.values {
        KeyIsWord(KindOf(line).key);
        LineTerminated(KindOf(line).key, g.values[KindOf(line).key]);
      }
    }
  }

  lemma KeyIsWord(k: string)
    ensures KeyWord(k) ==> Word(k)
  {}

  function Rewrite(p: Profile, t: string): string
    requires ProperProfile(p)
  {
    Text(Merge(p, Lines(t)))
  }

  /** On a newline-terminated file the rewrite is idempotent. */
  lemma RewriteTwice(p: Profile, t: string)
    requires ProperProfile(p) && (t == "" || t[|t| - 1] == '\n')
    ensures Rewrite(p, Rewrite(p, t)) == Rewrite(p, t)
  {
    hide Lines, Text, Terminated, KeyWord, Word, Missing, Step, KindOf;
    LinesTerminated(t);
    var lines := Lines(t);
    ScanTerminated(p, lines);
    var q := Scan(p, START, lines);
    RequiredProper(p, q.section);
    MissingTerminated(Required(p, q.section), Required(p, q.section).keys, Done(q, q.section));
    LinesOfText(Merge(p, lines));
    MergeTwice(p, lines);
  }

  // ----- without the final newline

  const OPEN := "[VIDEO]\n"
  const ADDED := "DISABLE_LEGACY_HDR=1\n"

  lemma OpenKind()
    ensures KindOf(OPEN) == Header(VIDEO)
  {
    StripRightEnd("[VIDEO]");
    assert Strip(OPEN) == "[VIDEO]";
  }

  /** A line starting "X=" is an entry for X as long as it does not look like a header. */
  lemma XKind(line: string, end: string)
    requires line == "X=" + end || line == "X=" + end + "\n"
    requires end != "" && !Blank(end[|end| - 1])
    ensures KindOf(line) == Entry("X")
  {
    var s := "X=" + end;
    if line != s { StripRightEnd(s); }
    assert StripLeft(line) == line && StripRight(s) == s && Strip(line) == s;
    assert s == "X" + "=" + end && s[1] == '=';
    BeforeEqualsOf("X", end);
  }

  lemma PureOnVideo(line: string)
    requires ProperProfile(PURE) && KindOf(OPEN) == Header(VIDEO) && KindOf(line) == Entry("X")
    ensures Merge(PURE, [OPEN, line]) == [OPEN, line, ADDED]
  {
    hide KindOf, Proper, Scan, Missing, Dict;
    HdrOnly(false);
    NothingRequired();
    var first, second := State(VIDEO, {}, {}, [OPEN]), State(VIDEO, {}, {}, [OPEN, line]);
    ScanOne(PURE, START, OPEN);
    assert START.out + Flush(PURE, START) + [OPEN] == [OPEN];
    assert Step(PURE, START, OPEN) == first;
    ScanOne(PURE, first, line);
    assert Step(PURE, first, line) == second;
    assert Flush(PURE, second) == [ADDED];
    ScanJoin(PURE, START, [OPEN], [line]);
    assert [OPEN] + [line] == [OPEN, line];
  }

  /** Without the final newline the added line runs into the last one, and a second pass adds it again. */
  lemma UnterminatedFileGrows()
    ensures ProperProfile(PURE)
    ensures Rewrite(PURE, Rewrite(PURE, OPEN + "X=1")) != Rewrite(PURE, OPEN + "X=1")
  {
    hide KindOf, PURE, Proper, Merge, Text, Lines;
    ProfilesProper();
    OpenKind();
    XKind("X=1", "1");
    XKind("X=1" + ADDED, "1DISABLE_LEGACY_HDR=1");
    PureOnVideo("X=1");
    PureOnVideo("X=1" + ADDED);
    LinesOpen();
    NotEmpty();
    TextOf3(OPEN, "X=1", ADDED);
    TextOf3(OPEN, "X=1" + ADDED, ADDED);
    var once := OPEN + ("X=1" + ADDED);
    assert once == OPEN + "X=1" + ADDED;
    assert Rewrite(PURE, once) == once + ADDED;
  }

  lemma TextCons(line: string, rest: seq<string>)
    ensures Text([line] + rest) == line + Text(rest)
  {
    assert ([line] + rest)[1..] == rest;
  }

  lemma TextOf3(a: string, b: string, c: string)
    ensures Text([a, b]) == a + b
    ensures Text([a, b, c]) == a + b + c
  {
    hide Text;
    TextCons(a, [b, c]);
    TextCons(b, [c]);
    TextCons(c, []);
    TextCons(a, [b]);
    TextCons(b, []);
    assert [a, b, c] == [a] + [b, c] && [b, c] == [b] + [c] && [c] == [c] + [] && [a, b] == [a] + [b]
      && [b] == [b] + [];
    NoText();
  }

  lemma NoText()
    ensures Text([]) == ""
  {}

  const X_ADDED := "X=1DISABLE_LEGACY_HDR=1"

  lemma OpenTerminated()
    ensures Terminated(OPEN) && Terminated(X_ADDED + "\n")
  {
    assert OPEN[..7] == "[VIDEO]";
    assert (X_ADDED + "\n")[..23] == X_ADDED;
  }

  lemma LinesOpen()
    ensures Lines(OPEN + "X=1") == [OPEN, "X=1"]
    ensures Lines(OPEN + (X_ADDED + "\n")) == [OPEN, X_ADDED + "\n"]
  {
    hide Text, Lines, Terminated, OPEN, X_ADDED;
    OpenTerminated();
    LinesOfText([OPEN, X_ADDED + "\n"]);
    TextOf3(OPEN, X_ADDED + "\n", "");
    HeadOf(OPEN, "X=1");
    LastLine("X=1");
    NotEmpty();
    LinesCons(OPEN, "X=1");
  }

  lemma NotEmpty()
    ensures OPEN != "" && '\n' !in "X=1" && "X=1" + ADDED == X_ADDED + "\n"
  {}

  lemma LinesCons(line: string, t: string)
    requires line != "" && Head(line + t) == |line|
    ensures Lines(line + t) == [line] + Lines(t)
  {
    assert (line + t)[..|line|] == line && (line + t)[|line|..] == t;
  }

  lemma LastLine(t: string)
    requires |t| == 3 && '\n' !in t
    ensures Lines(t) == [t]
  {
    assert Head(t) == 3;
    assert t[3..] == "" && t[..3] == t && Lines("") == [];
  }

  // ----- the two patches

  method AppendKeys(out: seq<string>, g: Settings, done: set<string>) returns (lines: seq<string>)
    requires Proper(g)
    ensures lines == out + Missing(g, g.keys, done)
  {
    lines := out;
    for i := 0 to |g.keys|
      invariant lines == out + Missing(g, g.keys[..i], done)
    {
      assert g.keys[..i + 1][..i] == g.keys[..i];
      var k := g.keys[i];
      if k !in done {
        lines := lines + [Line(k, g.values[k])];
      }
    }
    assert g.keys[..|g.keys|] == g.keys;
  }

  /** The sled's patch of video.ini for Pure HDR. */
  method EnsurePureVideoIni(lines: seq<string>) returns (newLines: seq<string>)
    ensures ProperProfile(PURE) && newLines == Merge(PURE, lines)
  {
    ProfilesProper();
    hide KindOf, Proper, Dict, Missing;
    var section, ppWritten: set<string>, hdrWritten := "", {}, false;
    newLines := [];
    for i := 0 to |lines|
      invariant Scan(PURE, START, lines[..i])
        == State(section, ppWritten, if hdrWritten then {LEGACY_HDR.0} else {}, newLines)
    {
      assert lines[..i + 1][..i] == lines[..i];
      HdrOnly(hdrWritten);
      NothingRequired();
      var line := lines[i];
      match KindOf(line) {
        case Header(name) =>
          if section == POST_PROCESS {
            newLines := AppendKeys(newLines, PURE.post, ppWritten);
          }
          if section == VIDEO && !hdrWritten {
            newLines := newLines + [ADDED];
            hdrWritten := true;
          }
          section := name;
          newLines := newLines + [line];
        case Entry(key) =>
          if section == POST_PROCESS && key in PURE.post.values {
            newLines := newLines + [Line(key, PURE.post.values[key])];
            ppWritten := ppWritten + {key};
          } else if section == VIDEO && key == LEGACY_HDR.0 {
            newLines := newLines + [ADDED];
            hdrWritten := true;
          } else {
            newLines := newLines + [line];
          }
        case Other => newLines := newLines + [line];
      }
    }
    assert lines[..|lines|] == lines;
    HdrOnly(hdrWritten);
    NothingRequired();
    if section == POST_PROCESS {
      newLines := AppendKeys(newLines, PURE.post, ppWritten);
    }
    if section == VIDEO && !hdrWritten {
      newLines := newLines + [ADDED];
    }
  }

  lemma HdrSettings()
    ensures PURE.video == Settings(["DISABLE_LEGACY_HDR"], map["DISABLE_LEGACY_HDR" := "1"])
  {
    hide POST_PAIRS;
    assert [LEGACY_HDR][..0] == [] && Dict([]) == NONE;
  }

  lemma OneMissing(g: Settings, k: string, done: set<string>)
    requires k in g.values
    ensures Missing(g, [k], done) == if k in done then [] else [Line(k, g.values[k])]
  {
    assert [k][..0] == [] && Missing(g, [], done) == [];
  }

  lemma HdrOnly(written: bool)
    requires Proper(PURE.video)
    ensures PURE.video.values == map[LEGACY_HDR.0 := "1"] && Line(LEGACY_HDR.0, "1") == ADDED
    ensures Missing(PURE.video, PURE.video.keys, if written then {LEGACY_HDR.0} else {}) == if written then []
      else [ADDED]
  {
    hide Proper, Dict, PURE, Missing;
    HdrSettings();
    OneMissing(PURE.video, LEGACY_HDR.0, if written then {LEGACY_HDR.0} else {});
  }

  /** The spectator's low-quality settings. */
  method WriteLowQualityVideoIni(lines: seq<string>) returns (newLines: seq<string>)
    ensures ProperProfile(LOW) && newLines == Merge(LOW, lines)
  {
    ProfilesProper();
    hide KindOf, Proper, Dict, Missing;
    var section, ppWritten: set<string>, videoWritten: set<string> := "", {}, {};
    newLines := [];
    for i := 0 to |lines|
      invariant Scan(LOW, START, lines[..i]) == State(section, ppWritten, videoWritten, newLines)
    {
      assert lines[..i + 1][..i] == lines[..i];
      NothingRequired();
      var line := lines[i];
      match KindOf(line) {
        case Header(name) =>
          if section == POST_PROCESS {
            newLines := AppendKeys(newLines, LOW.post, ppWritten);
          }
          if section == VIDEO {
            newLines := AppendKeys(newLines, LOW.video, videoWritten);
          }
          section := name;
          newLines := newLines + [line];
        case Entry(key) =>
          if section == POST_PROCESS && key in LOW.post.values {
            newLines := newLines + [Line(key, LOW.post.values[key])];
            ppWritten := ppWritten + {key};
          } else if section == VIDEO && key in LOW.video.values {
            newLines := newLines + [Line(key, LOW.video.values[key])];
            videoWritten := videoWritten + {key};
          } else {
            newLines := newLines + [line];
          }
        case Other => newLines := newLines + [line];
      }
    }
    assert lines[..|lines|] == lines;
    NothingRequired();
    if section == POST_PROCESS {
      newLines := AppendKeys(newLines, LOW.post, ppWritten);
    }
    if section == VIDEO {
      newLines := AppendKeys(newLines, LOW.video, videoWritten);
    }
  }

  lemma NothingRequired()
    ensures Missing(NONE, NONE.keys, {}) == []
  {}
}
