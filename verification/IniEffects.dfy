/**
  What the two rewrites of video.ini read and write, spelled out: the settings
  themselves, how a line is read, and how often a required line appears.
*/
module IniEffects {
  import opened OrderedDict
  import opened IniMerge
  import opened IniStability

  // ----- the settings

  lemma DictNext(pairs: seq<(string, string)>, pair: (string, string))
    ensures Dict(pairs + [pair]).keys == Dict(pairs).keys + [pair.0]
    ensures Dict(pairs + [pair]).values == Dict(pairs).values[pair.0 := pair.1]
    ensures Dict([]) == Settings([], map[])
  {
    assert (pairs + [pair])[..|pairs|] == pairs;
  }

  /** Under [POST_PROCESS] both rewrites require these, in this order. */
  lemma PostSettings(p: Profile)
    requires p == PURE || p == LOW
    ensures var g := Required(p, "POST_PROCESS");
      && g.keys == ["DOF", "ENABLED", "FILTER", "FXAA", "GLARE", "HEAT_SHIMMER", "QUALITY", "RAYS_OF_GOD"]
      && g.values == map["DOF" := "5", "ENABLED" := "1", "FILTER" := "pureHDR", "FXAA" := "1", "GLARE" := "5",
                         "HEAT_SHIMMER" := "1", "QUALITY" := "5", "RAYS_OF_GOD" := "1"]
  {
    hide Dict, LOW_PAIRS;
    var ps := POST_PAIRS;
    assert ps == [] + [ps[0]] + [ps[1]] + [ps[2]] + [ps[3]] + [ps[4]] + [ps[5]] + [ps[6]] + [ps[7]];
    var a := [] + [ps[0]] + [ps[1]] + [ps[2]];
    DictNext([], ps[0]);
    DictNext([] + [ps[0]], ps[1]);
    DictNext([] + [ps[0]] + [ps[1]], ps[2]);
    DictNext(a, ps[3]);
    DictNext(a + [ps[3]], ps[4]);
    DictNext(a + [ps[3]] + [ps[4]], ps[5]);
    DictNext(a + [ps[3]] + [ps[4]] + [ps[5]], ps[6]);
    DictNext(a + [ps[3]] + [ps[4]] + [ps[5]] + [ps[6]], ps[7]);
  }

  /** Under [VIDEO] the sled's rewrite requires one line. */
  lemma PureSettings()
    ensures Required(PURE, "VIDEO") == Settings(["DISABLE_LEGACY_HDR"], map["DISABLE_LEGACY_HDR" := "1"])
  {
    HdrSettings();
  }

  lemma LowHead()
    ensures var g := Dict(SHADOWS + EFFECTS);
      && g.keys == ["SHADOW_MAP_SIZE", "SHADOW_MAP_SIZE2", "SHADOW_MAP_SIZE3", "REFLECTION_RESOLUTION",
                    "REFLECTION_DISTANCE", "MOTION_BLUR", "DEPTH_OF_FIELD", "ANISOTROPIC"]
      && g.values == map["SHADOW_MAP_SIZE" := "512", "SHADOW_MAP_SIZE2" := "512", "SHADOW_MAP_SIZE3" := "256",
                         "REFLECTION_RESOLUTION" := "0", "REFLECTION_DISTANCE" := "0", "MOTION_BLUR" := "0",
                         "DEPTH_OF_FIELD" := "0", "ANISOTROPIC" := "4"]
  {
    hide Dict;
    var ps := SHADOWS + EFFECTS;
    var a := [] + [ps[0]] + [ps[1]] + [ps[2]];
    assert ps == a + [ps[3]] + [ps[4]] + [ps[5]] + [ps[6]] + [ps[7]];
    DictNext([], ps[0]);
    DictNext([] + [ps[0]], ps[1]);
    DictNext([] + [ps[0]] + [ps[1]], ps[2]);
    DictNext(a, ps[3]);
    DictNext(a + [ps[3]], ps[4]);
    DictNext(a + [ps[3]] + [ps[4]], ps[5]);
    DictNext(a + [ps[3]] + [ps[4]] + [ps[5]], ps[6]);
    DictNext(a + [ps[3]] + [ps[4]] + [ps[5]] + [ps[6]], ps[7]);
  }

  /** The spectator's requires these, in this order. */
  lemma LowSettings()
    ensures var g := Required(LOW, "VIDEO");
      && g.keys == ["SHADOW_MAP_SIZE", "SHADOW_MAP_SIZE2", "SHADOW_MAP_SIZE3", "REFLECTION_RESOLUTION",
                    "REFLECTION_DISTANCE", "MOTION_BLUR", "DEPTH_OF_FIELD", "ANISOTROPIC", "WIDTH", "HEIGHT",
                    "FULLSCREEN", "BORDERLESS", "DISABLE_LEGACY_HDR"]
      && g.values == map["SHADOW_MAP_SIZE" := "512", "SHADOW_MAP_SIZE2" := "512", "SHADOW_MAP_SIZE3" := "256",
                         "REFLECTION_RESOLUTION" := "0", "REFLECTION_DISTANCE" := "0", "MOTION_BLUR" := "0",
                         "DEPTH_OF_FIELD" := "0", "ANISOTROPIC" := "4", "WIDTH" := "1920", "HEIGHT" := "1080",
                         "FULLSCREEN" := "0", "BORDERLESS" := "1", "DISABLE_LEGACY_HDR" := "1"]
  {
    hide Dict, POST_PAIRS, SHADOWS, EFFECTS;
    LowHead();
    var b, ws := SHADOWS + EFFECTS, WINDOWED;
    assert LOW_PAIRS == b + [ws[0]] + [ws[1]] + [ws[2]] + [ws[3]] + [LEGACY_HDR];
    DictNext(b, ws[0]);
    DictNext(b + [ws[0]], ws[1]);
    DictNext(b + [ws[0]] + [ws[1]], ws[2]);
    DictNext(b + [ws[0]] + [ws[1]] + [ws[2]], ws[3]);
    DictNext(b + [ws[0]] + [ws[1]] + [ws[2]] + [ws[3]], LEGACY_HDR);
  }

  /** No other section requires anything. */
  lemma NothingElsewhere(p: Profile, section: string)
    requires section != "POST_PROCESS" && section != "VIDEO"
    ensures Required(p, section) == Settings([], map[])
  {}

  // ----- how a line is read

  ghost predicate AllBlank(s: string) {
    forall i :: 0 <= i < |s| ==> s[i] == ' ' || '\t' <= s[i] <= '\r' || '\U{1C}' <= s[i] <= '\U{1F}'
  }

  /** In capitals, as far as a to z go. */
  ghost predicate IsUpper(u: string, s: string) {
    |u| == |s| && forall i :: 0 <= i < |s| ==> u[i] == if 'a' <= s[i] <= 'z' then (s[i] as int - 32) as char else s[i]
  }

  lemma UpperIs(s: string)
    ensures IsUpper(Upper(s), s)
  {}

  lemma {:induction false} StripRightJoin(s: string, r: string)
    requires AllBlank(r) && s != "" && !Blank(s[|s| - 1])
    ensures StripRight(s + r) == s
  {
    if r == "" {
      assert s + r == s;
    } else {
      var t := s + r;
      assert t[..|t| - 1] == s + r[..|r| - 1] && t[|t| - 1] == r[|r| - 1];
      StripRightJoin(s, r[..|r| - 1]);
    }
  }

  lemma {:induction false} StripLeftBlank(l: string, s: string)
    requires AllBlank(l) && s != "" && !Blank(s[0])
    ensures StripLeft(l + s) == s
  {
    if l == "" {
      assert l + s == s;
    } else {
      assert (l + s)[1..] == l[1..] + s && (l + s)[0] == l[0];
      StripLeftBlank(l[1..], s);
    }
  }

  /** Blanks at both ends go, and nothing else. */
  lemma StripIs(l: string, s: string, r: string)
    requires AllBlank(l) && AllBlank(r) && s != "" && !Blank(s[0]) && !Blank(s[|s| - 1])
    ensures Strip(l + s + r) == s
  {
    hide Blank;
    assert l + s + r == l + (s + r) && (s + r)[0] == s[0];
    StripLeftBlank(l, s + r);
    StripRightJoin(s, r);
  }

  /** A name in brackets, blanks around them allowed, opens the section of that name in capitals. */
  lemma HeaderRead(l: string, name: string, r: string)
    requires AllBlank(l) && AllBlank(r)
    ensures var k := KindOf(l + ("[" + name + "]") + r); k.Header? && IsUpper(k.section, name)
  {
    hide Upper;
    var s := "[" + name + "]";
    StripIs(l, s, r);
    assert s[1..|s| - 1] == name;
    UpperIs(name);
  }

  /** A line of the form key = value is an entry of the key in capitals, blanks around the key allowed. */
  lemma EntryRead(l: string, key: string, a: string, rest: string)
    requires AllBlank(l) && AllBlank(a) && key != "" && '=' !in key && key[0] != '['
    requires !Blank(key[0]) && !Blank(key[|key| - 1])
    ensures var k := KindOf(l + key + a + "=" + rest); k.Entry? && IsUpper(k.key, key)
  {
    hide Upper, StripLeft, StripRight;
    UpperIs(key);
    var tail := key + a + "=" + rest;
    assert l + key + a + "=" + rest == l + tail && tail[0] == key[0];
    StripLeftBlank(l, tail);
    EqualsStays(key + a, rest);
    var kept := StripRightOf(key + a, rest);
    assert '=' !in key + a;
    BeforeEqualsOf(key + a, kept);
    assert "" + key + a == key + a;
    StripIs("", key, a);
    assert Strip(l + tail) == key + a + "=" + kept;
  }

  lemma EqualsStays(k: string, rest: string)
    ensures '=' in k + "=" + rest
  {
    assert (k + "=" + rest)[|k|] == '=';
  }

  lemma {:induction false} StripRightOf(k: string, rest: string) returns (kept: string)
    ensures StripRight(k + "=" + rest) == k + "=" + kept
  {
    if rest != "" && Blank(rest[|rest| - 1]) {
      assert (k + "=" + rest)[..|k| + |rest|] == k + "=" + rest[..|rest| - 1];
      kept := StripRightOf(k, rest[..|rest| - 1]);
    } else {
      kept := rest;
      if rest == "" { assert k + "=" + rest == k + "="; }
    }
  }

  /** Without an equals sign and without a bracket a line is neither. */
  lemma OtherRead(line: string)
    requires '=' !in line && '[' !in line
    ensures KindOf(line) == Other
  {
    hide StripLeft, StripRight;
    StripPart(line);
  }

  lemma {:induction false} StripPart(s: string)
    ensures forall c :: c in Strip(s) ==> c in s
  {
    LeftPart(s);
    RightPart(StripLeft(s));
  }

  lemma {:induction false} LeftPart(s: string)
    ensures forall c :: c in StripLeft(s) ==> c in s
  {
    if s != "" && Blank(s[0]) { LeftPart(s[1..]); }
  }

  lemma {:induction false} RightPart(s: string)
    ensures forall c :: c in StripRight(s) ==> c in s
  {
    if s != "" && Blank(s[|s| - 1]) { RightPart(s[..|s| - 1]); }
  }

  /** A line stands in the section opened last before it. */
  lemma {:induction false} SectionRead(lines: seq<string>, i: nat)
    requires i < |lines| && KindOf(lines[i]).Header? && forall j :: i < j < |lines| ==> !KindOf(lines[j]).Header?
    ensures SectionOf(lines) == KindOf(lines[i]).section
  {
    hide KindOf;
    if i < |lines| - 1 { SectionRead(lines[..|lines| - 1], i); }
  }

  /** A file with a [VIDEO] section that the sled rewrites holds the Pure HDR line in it, newline and all. */
  lemma PureLineWritten(lines: seq<string>)
    requires HasHeader(lines, "VIDEO")
    ensures ProperProfile(PURE)
    ensures exists i ::
      && 0 <= i < |Merge(PURE, lines)|
      && Merge(PURE, lines)[i] == "DISABLE_LEGACY_HDR=1\n" && SectionOf(Merge(PURE, lines)[..i]) == "VIDEO"
  {
    hide Merge, KindOf, SectionOf, PURE, Proper;
    ProfilesProper();
    PureSettings();
    MergeDelivers(PURE, lines, "VIDEO", "DISABLE_LEGACY_HDR");
    assert "DISABLE_LEGACY_HDR" + "=" + "1" + "\n" == "DISABLE_LEGACY_HDR=1\n";
  }

  // ----- how often a required line appears

  /** The entries of a key in a section. */
  function Entries(lines: seq<string>, section: string, k: string): nat {
    if lines == [] then 0
    else
      var init, line := lines[..|lines| - 1], lines[|lines| - 1];
      Entries(init, section, k) + if SectionOf(init) == section && KindOf(line) == Entry(k) then 1 else 0
  }

  lemma EntriesSnoc(lines: seq<string>, line: string, section: string, k: string)
    ensures Entries(lines + [line], section, k)
      == Entries(lines, section, k) + if SectionOf(lines) == section && KindOf(line) == Entry(k) then 1 else 0
    ensures SectionOf(lines + [line]) == if KindOf(line).Header? then KindOf(line).section else SectionOf(lines)
  {
    hide KindOf;
    assert (lines + [line])[..|lines|] == lines;
  }

  /** Appending the missing lines of a section adds one entry for each key not written. */
  lemma {:induction false} EntriesMissing(p: Profile, out: seq<string>, keys: seq<string>, done: set<string>,
      section: string, k: string)
    requires ProperProfile(p) && NoDup(keys)
    requires forall x :: x in keys ==> x in Required(p, SectionOf(out)).values
    ensures var more := out + Missing(Required(p, SectionOf(out)), keys, done);
      && SectionOf(more) == SectionOf(out)
      && Entries(more, section, k) == Entries(out, section, k)
           + if section == SectionOf(out) && k in keys && k !in done then 1 else 0
  {
    hide KindOf, Entries, SectionOf, ProperProfile, KeyWord, Word, Line;
    var g := Required(p, SectionOf(out));
    if keys == [] {
      assert out + Missing(g, keys, done) == out;
    } else {
      var init, last := keys[..|keys| - 1], keys[|keys| - 1];
      assert keys == init + [last] && last !in init;
      EntriesMissing(p, out, init, done, section, k);
      if last !in done {
        var more := out + Missing(g, init, done);
        var line := Line(last, g.values[last]);
        RequiredProper(p, SectionOf(out));
        LineKind(last, g.values[last]);
        EntriesSnoc(more, line, section, k);
        assert out + Missing(g, keys, done) == more + [line];
      }
    }
  }

  /** How often the section is left before it has had an entry of the key. */
  function LeftWithout(lines: seq<string>, section: string, k: string): nat {
    if lines == [] then 0
    else
      var init, line := lines[..|lines| - 1], lines[|lines| - 1];
      LeftWithout(init, section, k)
      + if KindOf(line).Header? && SectionOf(init) == section && Entries(init, section, k) == 0 then 1 else 0
  }

  /** The same with the end of the file. */
  function EndsWithout(lines: seq<string>, section: string, k: string): nat {
    LeftWithout(lines, section, k) + if SectionOf(lines) == section && Entries(lines, section, k) == 0 then 1 else 0
  }

  /** The sled's rewrite adds to [VIDEO] only the first time. */
  function Additions(p: Profile, section: string, n: nat): nat {
    if p.once && section == "VIDEO" && n > 0 then 1 else n
  }

  /** What has been counted when the first pass stands at `q`. */
  ghost predicate Counted(p: Profile, lines: seq<string>, q: State, section: string, k: string) {
    var n, left := Entries(lines, section, k), LeftWithout(lines, section, k);
    && SectionOf(lines) == q.section == SectionOf(q.out)
    && Entries(q.out, section, k) == n + Additions(p, section, left)
    && (k in Done(q, section) <==> n > 0 || (p.once && section == "VIDEO" && left > 0))
  }

  lemma LeftSnoc(lines: seq<string>, line: string, section: string, k: string)
    ensures LeftWithout(lines + [line], section, k) == LeftWithout(lines, section, k)
      + if KindOf(line).Header? && SectionOf(lines) == section && Entries(lines, section, k) == 0 then 1 else 0
  {
    hide KindOf, SectionOf, Entries;
    assert (lines + [line])[..|lines|] == lines;
  }

  lemma DistinctKeys(p: Profile, section: string)
    requires Separate(p)
    ensures NoDup(Required(p, section).keys)
    ensures forall k :: k in Required(p, section).keys <==> k in Required(p, section).values
    ensures ProperProfile(p)
  {}

  lemma HeaderCounted(p: Profile, lines: seq<string>, q: State, line: string, section: string, k: string)
    requires Separate(p) && ProperProfile(p) && k in Required(p, section).values && Counted(p, lines, q, section, k)
    requires KindOf(line).Header?
    ensures Counted(p, lines + [line], Step(p, q, line), section, k)
  {
    hide KindOf, Entries, SectionOf, ProperProfile, Separate, LeftWithout, Missing;
    DistinctKeys(p, q.section);
    EntriesMissing(p, q.out, Required(p, q.section).keys, Done(q, q.section), section, k);
    EntriesSnoc(q.out + Flush(p, q), line, section, k);
    EntriesSnoc(lines, line, section, k);
    LeftSnoc(lines, line, section, k);
  }

  lemma LineCounted(p: Profile, lines: seq<string>, q: State, line: string, section: string, k: string)
    requires ProperProfile(p) && k in Required(p, section).values && Counted(p, lines, q, section, k)
    requires !KindOf(line).Header?
    ensures Counted(p, lines + [line], Step(p, q, line), section, k)
  {
    hide KindOf, Entries, SectionOf, ProperProfile, LeftWithout, Missing, KeyWord, Word, Line;
    EntriesSnoc(lines, line, section, k);
    LeftSnoc(lines, line, section, k);
    var g := Required(p, q.section);
    var written := if Wanted(p, q.section, line) then Line(KindOf(line).key, g.values[KindOf(line).key]) else line;
    if Wanted(p, q.section, line) {
      RequiredProper(p, q.section);
      LineKind(KindOf(line).key, g.values[KindOf(line).key]);
    }
    EntriesSnoc(q.out, written, section, k);
    assert Step(p, q, line).out == q.out + [written];
  }

  lemma {:induction false} ScanCounted(p: Profile, lines: seq<string>, section: string, k: string)
    requires Separate(p) && ProperProfile(p) && k in Required(p, section).values
    ensures Counted(p, lines, Scan(p, START, lines), section, k)
  {
    hide KindOf, Step, Separate, Counted, ProperProfile;
    if lines == [] {
      StartCounted(p, section, k);
    } else {
      var init, line := lines[..|lines| - 1], lines[|lines| - 1];
      assert lines == init + [line];
      ScanCounted(p, init, section, k);
      if KindOf(line).Header? {
        HeaderCounted(p, init, Scan(p, START, init), line, section, k);
      } else {
        LineCounted(p, init, Scan(p, START, init), line, section, k);
      }
    }
  }

  lemma StartCounted(p: Profile, section: string, k: string)
    requires k in Required(p, section).values
    ensures Counted(p, [], START, section, k)
  {}

  /**
    A rewrite adds an entry of a required key each time its section ends before it
    has had one, the sled's under [VIDEO] only once, and drops none.
  */
  lemma MergeCounts(p: Profile, lines: seq<string>, section: string, k: string)
    requires Separate(p) && k in Required(p, section).values
    ensures ProperProfile(p)
    ensures Entries(Merge(p, lines), section, k)
      == Entries(lines, section, k) + Additions(p, section, EndsWithout(lines, section, k))
  {
    hide KindOf, Entries, SectionOf, Separate, LeftWithout, Missing, ProperProfile;
    DistinctKeys(p, section);
    ScanCounted(p, lines, section, k);
    var q := Scan(p, START, lines);
    DistinctKeys(p, q.section);
    EntriesMissing(p, q.out, Required(p, q.section).keys, Done(q, q.section), section, k);
  }

  /** Which of the two adds only once. */
  lemma BothMergeCounts(lines: seq<string>, k: string)
    ensures ProperProfile(PURE) && ProperProfile(LOW)
    ensures k in Required(PURE, "VIDEO").values ==>
      Entries(Merge(PURE, lines), "VIDEO", k)
      == Entries(lines, "VIDEO", k) + if EndsWithout(lines, "VIDEO", k) > 0 then 1 else 0
    ensures k in Required(LOW, "VIDEO").values ==>
      Entries(Merge(LOW, lines), "VIDEO", k) == Entries(lines, "VIDEO", k) + EndsWithout(lines, "VIDEO", k)
  {
    hide Merge, Entries, EndsWithout, Separate, Required;
    ProfilesSeparate();
    SeparateProper(PURE);
    SeparateProper(LOW);
    if k in Required(PURE, "VIDEO").values { MergeCounts(PURE, lines, "VIDEO", k); }
    if k in Required(LOW, "VIDEO").values { MergeCounts(LOW, lines, "VIDEO", k); }
  }
}
