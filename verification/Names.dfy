/** File names: how the data handler prints them (src/data/data_handler.cpp:163, 227-243, 333), and how the mirror
    parses them (daemon/mirror_engine.cpp:207-286). */
module Names {
  import opened Basics

  const UINT32_MAX: nat := 0xFFFF_FFFF
  const TWO_TO_64: nat := 0x1_0000_0000_0000_0000

  // ---------------------------------------------------------------- decimal numbers

  predicate IsDigit(c: char) {
    '0' <= c <= '9'
  }

  function DigitValue(c: char): (d: nat)
    requires IsDigit(c)
    ensures d < 10
  {
    c as int - '0' as int
  }

  function DigitChar(d: nat): (c: char)
    requires d < 10
    ensures IsDigit(c) && DigitValue(c) == d
  {
    (d + '0' as int) as char
  }

  /** std::to_string of an unsigned number. */
  function Decimal(n: nat): (s: string)
    ensures s != [] && AllDigits(s)
  {
    if n < 10 then [DigitChar(n)] else Decimal(n / 10) + [DigitChar(n % 10)]
  }

  ghost predicate AllDigits(s: string) {
    forall k :: 0 <= k < |s| ==> IsDigit(s[k])
  }

  function Value(s: string): nat
    requires AllDigits(s)
  {
    if s == [] then 0 else Value(s[..|s| - 1]) * 10 + DigitValue(s[|s| - 1])
  }

  lemma {:induction false} ValueOfDecimal(n: nat)
    ensures Value(Decimal(n)) == n
  {
    if n >= 10 {
      ValueOfDecimal(n / 10);
      var s := Decimal(n / 10);
      assert Decimal(n)[..|Decimal(n)| - 1] == s;
    }
  }

  function TrailingDigits(u: string): nat {
    if u == [] || !IsDigit(u[|u| - 1]) then 0 else TrailingDigits(u[..|u| - 1]) + 1
  }

  lemma {:induction false} TrailingDigitsAre(p: string, s: string)
    requires p != [] && !IsDigit(p[|p| - 1]) && AllDigits(s)
    ensures TrailingDigits(p + s) == |s|
  {
    if s == [] {
      assert p + s == p;
    } else {
      TrailingDigitsAre(p, s[..|s| - 1]);
      assert (p + s)[..|p + s| - 1] == p + s[..|s| - 1];
    }
  }

  /** A number printed behind a separator can be told from any other, whatever stands before. */
  lemma DecimalSuffixIsInjective(p: string, a: nat, q: string, b: nat, post: string)
    requires p != [] && q != [] && !IsDigit(p[|p| - 1]) && !IsDigit(q[|q| - 1])
    requires p + Decimal(a) + post == q + Decimal(b) + post
    ensures p == q && a == b
  {
    var s, t := Decimal(a), Decimal(b);
    var u, v := p + s, q + t;
    assert |u| == |v|;
    assert u == (u + post)[..|u|] && v == (v + post)[..|v|];
    TrailingDigitsAre(p, s);
    TrailingDigitsAre(q, t);
    assert p == u[..|p|] && s == u[|p|..];
    assert q == v[..|q|] && t == v[|q|..];
    ValueOfDecimal(a);
    ValueOfDecimal(b);
  }

  // ---------------------------------------------------------------- names the data handler builds

  const READOUT_DIR := "/readout_data/"
  const TRIGGER_DIR := "/trigger_data/"
  const PPS_DIR := "/pps_data/"
  const READOUT_MARKER := "pGRAMS_bin_"
  const TRIGGER_MARKER := "trigger_raw_"
  const PPS_MARKER := "pps_data_"

  function ReadoutStem(base: string): string {
    base + READOUT_DIR + READOUT_MARKER
  }

  function TriggerStem(base: string): string {
    base + TRIGGER_DIR + TRIGGER_MARKER
  }

  function PpsStem(base: string): string {
    base + PPS_DIR + PPS_MARKER
  }

  /** Run and number behind a stem. */
  function Numbered(stem: string, run: nat, number: nat, ext: string): string {
    stem + Decimal(run) + "_" + Decimal(number) + ext
  }

  function ReadoutName(base: string, run: nat, file: nat): string {
    Numbered(ReadoutStem(base), run, file, ".dat")
  }

  /** BuildTriggerRawFileName and BuildPpsFileName share this shape; segment 0 is not printed. */
  function SegmentName(stem: string, run: nat, segment: nat): string {
    if segment > 0 then Numbered(stem, run, segment, ".bin") else stem + Decimal(run) + ".bin"
  }

  /** A stem ends in an underscore behind a letter, as all three stems do. */
  predicate IsStem(stem: string) {
    |stem| >= 2 && stem[|stem| - 1] == '_' && !IsDigit(stem[|stem| - 2])
  }

  lemma StemsAreStems(base: string)
    ensures IsStem(ReadoutStem(base)) && IsStem(TriggerStem(base)) && IsStem(PpsStem(base))
  {
  }

  lemma NumberedIsInjective(stem: string, run: nat, k: nat, stem': string, run': nat, k': nat, ext: string)
    requires IsStem(stem) && IsStem(stem')
    requires Numbered(stem, run, k, ext) == Numbered(stem', run', k', ext)
    ensures stem == stem' && run == run' && k == k'
  {
    DecimalSuffixIsInjective(stem + Decimal(run) + "_", k, stem' + Decimal(run') + "_", k', ext);
    DecimalSuffixIsInjective(stem, run, stem', run', "_");
  }

  lemma PrefixIsInjective(a: string, b: string, tail: string)
    requires a + tail == b + tail
    ensures a == b
  {
    assert |a| == |b| && a == (a + tail)[..|a|] && b == (b + tail)[..|b|];
  }

  /** No two readout files share a name, on whatever disks they are. */
  lemma ReadoutNameIsInjective(base: string, run: nat, file: nat, base': string, run': nat, file': nat)
    requires ReadoutName(base, run, file) == ReadoutName(base', run', file')
    ensures base == base' && run == run' && file == file'
  {
    StemsAreStems(base);
    StemsAreStems(base');
    NumberedIsInjective(ReadoutStem(base), run, file, ReadoutStem(base'), run', file', ".dat");
    PrefixIsInjective(base + READOUT_DIR, base' + READOUT_DIR, READOUT_MARKER);
    PrefixIsInjective(base, base', READOUT_DIR);
  }

  lemma PlainNameIsNotNumbered(stem: string, stem': string, run: nat, segment: nat, ext: string)
    requires IsStem(stem) && IsStem(stem')
    ensures stem + Decimal(run) + ext != Numbered(stem', run, segment, ext)
  {
    var p := stem' + Decimal(run) + "_";
    assert p[|p| - 2] == Decimal(run)[|Decimal(run)| - 1];
    if stem + Decimal(run) + ext == p + Decimal(segment) + ext {
      DecimalSuffixIsInjective(stem, run, p, segment, ext);
    }
  }

  /** Within a run, the trigger and PPS names tell the segment and the disk. */
  lemma SegmentNameIsInjective(stem: string, stem': string, run: nat, segment: nat, segment': nat)
    requires IsStem(stem) && IsStem(stem')
    requires SegmentName(stem, run, segment) == SegmentName(stem', run, segment')
    ensures segment == segment' && stem == stem'
  {
    if segment > 0 && segment' > 0 {
      NumberedIsInjective(stem, run, segment, stem', run, segment', ".bin");
    } else if segment == 0 && segment' == 0 {
      DecimalSuffixIsInjective(stem, run, stem', run, ".bin");
    } else if segment > 0 {
      PlainNameIsNotNumbered(stem', stem, run, segment, ".bin");
    } else {
      PlainNameIsNotNumbered(stem, stem', run, segment', ".bin");
    }
  }

  // ---------------------------------------------------------------- what the mirror parses

  ghost predicate Occurs(path: string, pat: string, k: int) {
    0 <= k && k + |pat| <= |path| && path[k..k + |pat|] == pat
  }

  /** std::string::find from position `k` on. */
  function Find(path: string, pat: string, k: nat): (r: Option<nat>)
    requires k <= |path|
    ensures r.Some? ==> k <= r.value && Occurs(path, pat, r.value)
    ensures forall j :: k <= j < (if r.Some? then r.value else |path| + 1) ==> !Occurs(path, pat, j)
    decreases |path| - k
  {
    if k + |pat| > |path| then None
    else if path[k..k + |pat|] == pat then Some(k)
    else Find(path, pat, k + 1)
  }

  ghost predicate Contains(path: string, pat: string) {
    exists k :: Occurs(path, pat, k)
  }

  /** IsTofPath (:52-55). */
  predicate IsTofPath(path: string) {
    || Find(path, "/tof_data/", 0).Some?
    || (|path| >= 9 && path[|path| - 9..] == "/tof_data")
  }

  function DigitsEnd(path: string, k: nat): (e: nat)
    requires k <= |path|
    ensures k <= e <= |path|
    ensures AllDigits(path[k..e])
    ensures e < |path| ==> !IsDigit(path[e])
    decreases |path| - k
  {
    if k < |path| && IsDigit(path[k]) then
      var e := DigitsEnd(path, k + 1);
      assert path[k..e] == [path[k]] + path[k + 1..e];
      e
    else k
  }

  /** The accumulation in 64 bits. */
  function Wrapped(s: string): nat
    requires AllDigits(s)
  {
    if s == [] then 0 else (Wrapped(s[..|s| - 1]) * 10 + DigitValue(s[|s| - 1])) % TWO_TO_64
  }

  lemma WrappedGrows(path: string, k: nat, i: nat)
    requires k <= i < |path| && AllDigits(path[k..i]) && IsDigit(path[i])
    ensures AllDigits(path[k..i + 1]) && DigitsEnd(path, i) == DigitsEnd(path, i + 1)
    ensures Wrapped(path[k..i + 1]) == (Wrapped(path[k..i]) * 10 + DigitValue(path[i])) % TWO_TO_64
  {
    var s, t := path[k..i], path[k..i + 1];
    assert t == s + [path[i]];
    assert t[..|t| - 1] == s && t[|t| - 1] == path[i];
  }

  lemma {:induction false} WrappedIsRemainder(s: string)
    requires AllDigits(s)
    ensures Wrapped(s) == Value(s) % TWO_TO_64
  {
    if s != [] {
      WrappedIsRemainder(s[..|s| - 1]);
      WrapEachDigit(Value(s[..|s| - 1]), DigitValue(s[|s| - 1]));
    }
  }

  lemma WrapEachDigit(v: nat, d: nat)
    ensures (v % TWO_TO_64 * 10 + d) % TWO_TO_64 == (v * 10 + d) % TWO_TO_64
  {
    var q, w := v / TWO_TO_64, v % TWO_TO_64 * 10 + d;
    DivModIs(v * 10 + d, TWO_TO_64, q * 10 + w / TWO_TO_64, w % TWO_TO_64);
  }

  /** ParseUintAfter: the number that starts at `offset` and where it ends. */
  function ParseUint(path: string, offset: nat): Option<(nat, nat)> {
    if offset >= |path| || !IsDigit(path[offset]) then None
    else
      var e := DigitsEnd(path, offset);
      var v := Wrapped(path[offset..e]);
      if v > UINT32_MAX then None else Some((v, e))
  }

  method ParseUintAfter(path: string, offset: nat) returns (r: Option<(nat, nat)>)
    ensures r == ParseUint(path, offset)
  {
    if offset >= |path| || !IsDigit(path[offset]) {
      return None;
    }
    var parsed := 0;
    var i := offset;
    while i < |path| && IsDigit(path[i])
      invariant offset <= i <= |path| && AllDigits(path[offset..i])
      invariant parsed == Wrapped(path[offset..i])
      invariant DigitsEnd(path, offset) == DigitsEnd(path, i)
    {
      WrappedGrows(path, offset, i);
      parsed := (parsed * 10 + DigitValue(path[i])) % TWO_TO_64;
      i := i + 1;
    }
    if parsed > UINT32_MAX {
      return None;
    }
    return Some((parsed, i));
  }

  lemma {:induction false} DigitsEndIs(path: string, k: nat, e: nat)
    requires k <= e <= |path| && AllDigits(path[k..e]) && (e < |path| ==> !IsDigit(path[e]))
    ensures DigitsEnd(path, k) == e
    decreases e - k
  {
    if k < e {
      assert path[k] == path[k..e][0];
      assert path[k + 1..e] == path[k..e][1..];
      DigitsEndIs(path, k + 1, e);
    }
  }

  /** `path[k..e]` is not empty and all digits, and no further digit follows. */
  ghost predicate Digits(path: string, k: nat, e: nat) {
    k < e <= |path| && AllDigits(path[k..e]) && (e < |path| ==> !IsDigit(path[e]))
  }

  /** A number is accepted exactly when its value modulo 2^64 fits in 32 bits, and that remainder is the result:
      numbers from 2^32 up are refused, but some from 2^64 up are taken for a smaller one. */
  lemma ParseUintIff(path: string, offset: nat, v: nat, e: nat)
    ensures ParseUint(path, offset) == Some((v, e)) <==>
            Digits(path, offset, e) && v == Value(path[offset..e]) % TWO_TO_64 && v <= UINT32_MAX
  {
    if Digits(path, offset, e) {
      assert path[offset] == path[offset..e][0];
      DigitsEndIs(path, offset, e);
    }
    if offset < |path| {
      WrappedIsRemainder(path[offset..DigitsEnd(path, offset)]);
    }
  }

  /** A printed number of up to 64 bits is parsed back, up to the first character that is no digit, exactly when
      it fits in 32 bits; a longer one is taken modulo 2^64. */
  lemma PrintedNumberIsParsed(path: string, pre: string, n: nat, post: string)
    requires path == pre + Decimal(n) + post && (post != [] ==> !IsDigit(post[0]))
    ensures var v := n % TWO_TO_64;
      ParseUint(path, |pre|) == if v <= UINT32_MAX then Some((v, |pre| + |Decimal(n)|)) else None
  {
    var e := |pre| + |Decimal(n)|;
    assert path[|pre|..e] == Decimal(n);
    assert e < |path| ==> path[e] == post[0];
    DigitsEndIs(path, |pre|, e);
    ValueOfDecimal(n);
    WrappedIsRemainder(Decimal(n));
  }

  datatype FileMeta = FileMeta(runId: nat, nvmeIndex: nat, priority: int, segment: int)

  /** static_cast<int> of a 32-bit number. */
  function AsInt32(v: nat): (r: int)
    requires v <= UINT32_MAX
    ensures -0x8000_0000 <= r < 0x8000_0000 && (r == v || r == v - 0x1_0000_0000)
  {
    if v < 0x8000_0000 then v else v - 0x1_0000_0000
  }

  /** What becomes of a printed file number or segment: itself below 2^31, as any that are ever printed. */
  function SegmentOf(k: nat): (r: int)
    ensures k < 0x8000_0000 ==> r == k
  {
    if k % TWO_TO_64 <= UINT32_MAX then AsInt32(k % TWO_TO_64) else 0
  }

  /** The segment behind an underscore at `e`, 0 when there is none to parse. */
  function SegmentAt(path: string, e: nat): int {
    var r := ParseUint(path, e + 1);
    if r.Some? then AsInt32(r.value.0) else 0
  }

  /** A trigger or PPS name (:248-274), or a run log (:276-283) when `numbered` is false. */
  function ParseMarked(path: string, disk: nat, marker: string, priority: int, numbered: bool): Option<FileMeta> {
    var at := Find(path, marker, 0);
    if at.None? then None else RankBehind(path, disk, at.value + |marker|, priority, numbered)
  }

  /** What the number at `behind` makes of the path, if there is one. */
  function RankBehind(path: string, disk: nat, behind: nat, priority: int, numbered: bool): Option<FileMeta> {
    var r := ParseUint(path, behind);
    if r.None? then None else Some(Ranked(path, disk, r.value.0, r.value.1, priority, numbered))
  }

  /** The rank of a path whose run number ends at `e`. */
  function Ranked(path: string, disk: nat, run: nat, e: nat, priority: int, numbered: bool): FileMeta {
    FileMeta(run, disk, priority, if numbered && e < |path| && path[e] == '_' then SegmentAt(path, e) else 0)
  }

  /** The markers the parser looks for; they must be those the names are built with. */
  const KNOWN_READOUT := "pGRAMS_bin_"
  const KNOWN_TRIGGER := "trigger_raw_"
  const KNOWN_PPS := "pps_data_"
  const KNOWN_LOG := "/run_"

  lemma MarkersAgree()
    ensures KNOWN_READOUT == READOUT_MARKER && KNOWN_TRIGGER == TRIGGER_MARKER && KNOWN_PPS == PPS_MARKER
  {
  }

  /** The number behind a readout marker (:235-238), whether or not an underscore follows. */
  function ReadoutRun(path: string): Option<(nat, nat)> {
    var at := Find(path, KNOWN_READOUT, 0);
    if at.None? then None else ParseUint(path, at.value + |KNOWN_READOUT|)
  }

  /** ParseFileMeta. A run number behind a readout marker stays in the result even when no underscore follows,
      unless a later marker replaces it. */
  function ParseFileMeta(path: string, disk: nat): FileMeta {
    Classify(path, disk, IsTofPath(path), ReadoutRun(path))
  }

  function Classify(path: string, disk: nat, tof: bool, readout: Option<(nat, nat)>): FileMeta {
    if tof then FileMeta(UINT32_MAX, disk, 9, 0)
    else if readout.Some? && readout.value.1 < |path| && path[readout.value.1] == '_' then
      FileMeta(readout.value.0, disk, 1, SegmentAt(path, readout.value.1))
    else ParseOther(path, disk, if readout.Some? then readout.value.0 else UINT32_MAX)
  }

  /** The later markers in their order (:248-285). */
  function ParseOther(path: string, disk: nat, run: nat): FileMeta {
    var trigger := ParseMarked(path, disk, KNOWN_TRIGGER, 2, true);
    var pps := ParseMarked(path, disk, KNOWN_PPS, 3, true);
    var log := ParseMarked(path, disk, KNOWN_LOG, 4, false);
    if trigger.Some? then trigger.value
    else if pps.Some? then pps.value
    else if log.Some? then log.value
    else FileMeta(run, disk, 9, 0)
  }

  // ---------------------------------------------------------------- the markers stand where they were printed

  /** A marker without a slash that occurs in `base + dir + file` before `file` occurs in `base`, when `dir` is
      between slashes and cannot hold it: it is too short, or lacks the character `c`. */
  lemma NotBefore(base: string, dir: string, file: string, pat: string, c: char, k: int)
    requires |dir| >= 2 && dir[0] == '/' && dir[|dir| - 1] == '/'
    requires pat != [] && '/' !in pat && !Contains(base, pat)
    requires |pat| > |dir| - 2 || (c in pat && c !in dir)
    requires Occurs(base + dir + file, pat, k)
    ensures k >= |base| + |dir|
  {
    var path := base + dir + file;
    assert path[k..k + |pat|] == pat;
    assert forall j :: k <= j < k + |pat| ==> path[j] == pat[j - k];
    assert forall j :: |base| <= j < |base| + |dir| ==> path[j] == dir[j - |base|];
    assert path[|base|] == '/' && path[|base| + |dir| - 1] == '/';
    if k + |pat| <= |base| {
      assert base[k..k + |pat|] == path[k..k + |pat|];
      assert Occurs(base, pat, k);
    }
    if c in pat {
      var m :| 0 <= m < |pat| && pat[m] == c;
      assert path[k + m] == c;
    }
  }

  /** What an occurrence says about the characters it covers. */
  lemma OccursAt(path: string, pat: string, k: int, j: int)
    requires Occurs(path, pat, k) && 0 <= j < |pat|
    ensures path[k + j] == pat[j]
  {
    assert path[k..k + |pat|][j] == path[k + j];
  }

  lemma OccursInPrefix(base: string, tail: string, pat: string, k: int)
    requires Occurs(base + tail, pat, k) && k + |pat| <= |base|
    ensures Occurs(base, pat, k)
  {
    assert base[k..k + |pat|] == (base + tail)[k..k + |pat|];
  }

  lemma TailCharacters(base: string, tail: string)
    requires tail != []
    ensures (base + tail)[|base|] == tail[0]
    ensures forall j :: |base| <= j < |base + tail| ==> (base + tail)[j] in tail
  {
    forall j | |base| <= j < |base + tail| ensures (base + tail)[j] in tail {
      assert (base + tail)[j] == tail[j - |base|];
    }
  }

  /** A marker without a slash whose character `c` is missing from the tail can only occur in the base. */
  lemma OnlyInBase(base: string, tail: string, pat: string, m: nat, k: int)
    requires tail != [] && tail[0] == '/' && Occurs(base + tail, pat, k)
    requires '/' !in pat && m < |pat| && pat[m] !in tail
    ensures Occurs(base, pat, k)
  {
    var path := base + tail;
    OccursAt(path, pat, k, m);
    TailCharacters(base, tail);
    if k + |pat| > |base| && k <= |base| {
      OccursAt(path, pat, k, |base| - k);
    }
    if k + |pat| <= |base| {
      OccursInPrefix(base, tail, pat, k);
    }
  }

  lemma Nowhere(base: string, tail: string, pat: string, m: nat)
    requires tail != [] && tail[0] == '/' && !Contains(base, pat)
    requires '/' !in pat && m < |pat| && pat[m] !in tail
    ensures Find(base + tail, pat, 0) == None
  {
    var at := Find(base + tail, pat, 0);
    if at.Some? {
      OnlyInBase(base, tail, pat, m, at.value);
    }
  }

  /** A letter of the TOF directory that is nowhere in the tail, by its place in the pattern. */
  predicate LacksLetter(tail: string, m: nat) {
    (m == 3 && 'f' !in tail) || (m == 5 && 'd' !in tail)
  }

  /** The only way to a TOF path below `base` is through `base` itself, when the tail lacks a letter of it. */
  lemma TofOnlyInBase(base: string, tail: string, m: nat, k: int)
    requires tail != [] && tail[0] == '/' && LacksLetter(tail, m)
    requires Occurs(base + tail, "/tof_data/", k)
    ensures Occurs(base, "/tof_data/", k) || (|base| >= 9 && base[|base| - 9..] == "/tof_data")
  {
    var path, pat := base + tail, "/tof_data/";
    OccursAt(path, pat, k, m);
    TailCharacters(base, tail);
    if k + 10 <= |base| {
      OccursInPrefix(base, tail, pat, k);
    } else {
      OccursAt(path, pat, k, |base| - k);
      assert |base| - k == 9;
      assert base[|base| - 9..] == path[k..k + 10][..9];
    }
  }

  lemma NotTof(base: string, tail: string, m: nat)
    requires !IsTofPath(base) && |tail| >= 9 && tail[0] == '/' && LacksLetter(tail, m) && tail[|tail| - 1] != 'a'
    ensures !IsTofPath(base + tail)
  {
    var path := base + tail;
    var at := Find(path, "/tof_data/", 0);
    if at.Some? {
      TofOnlyInBase(base, tail, m, at.value);
    }
    var last := path[|path| - 9..];
    assert last[8] == path[|path| - 1] == tail[|tail| - 1];
    assert last != "/tof_data";
  }

  // ---------------------------------------------------------------- round trips

  /** `Find` stops at a marker that occurs nowhere before. */
  lemma FindsMarker(pre: string, pat: string, post: string)
    requires forall k :: Occurs(pre + pat + post, pat, k) ==> k >= |pre|
    ensures Find(pre + pat + post, pat, 0) == Some(|pre|)
  {
    var path := pre + pat + post;
    assert path[|pre|..|pre| + |pat|] == pat;
    assert Occurs(path, pat, |pre|);
  }

  lemma Assoc4<T>(a: seq<T>, b: seq<T>, c: seq<T>, d: seq<T>)
    ensures a + b + c + d == a + (b + c + d)
  {
  }

  /** The two numbers of a numbered name are parsed back. */
  lemma NumberedIsParsed(path: string, stem: string, run: nat, k: nat, ext: string, e: nat)
    requires path == Numbered(stem, run, k, ext) && e == |stem| + |Decimal(run)|
    requires run <= UINT32_MAX && ext != [] && !IsDigit(ext[0])
    ensures ParseUint(path, |stem|) == Some((run, e))
    ensures e < |path| && path[e] == '_' && SegmentAt(path, e) == SegmentOf(k)
  {
    var head, n := stem + Decimal(run), Decimal(k);
    var post := "_" + n + ext;
    assert path == head + post by { Assoc4(head, "_", n, ext); }
    assert post[0] == '_';
    FirstNumber(path, stem, run, post, e);
    SecondNumber(path, head + "_", k, ext);
  }

  lemma SecondNumber(path: string, pre: string, k: nat, ext: string)
    requires path == pre + Decimal(k) + ext && pre != []
    requires ext != [] ==> !IsDigit(ext[0])
    ensures SegmentAt(path, |pre| - 1) == SegmentOf(k)
  {
    PrintedNumberIsParsed(path, pre, k, ext);
  }

  lemma FirstNumber(path: string, stem: string, run: nat, post: string, e: nat)
    requires path == stem + Decimal(run) + post && e == |stem| + |Decimal(run)|
    requires run <= UINT32_MAX && post != [] && !IsDigit(post[0])
    ensures ParseUint(path, |stem|) == Some((run, e)) && e < |path| && path[e] == post[0]
  {
    PrintedNumberIsParsed(path, stem, run, post);
    DivModIs(run, TWO_TO_64, 0, run);
    NextCharacter(stem + Decimal(run), post);
  }

  lemma NextCharacter(head: string, post: string)
    requires post != []
    ensures (head + post)[|head|] == post[0]
  {
  }

  /** The two shapes of a segment name. */
  lemma SegmentIsParsed(path: string, stem: string, run: nat, segment: nat, ext: string, e: nat)
    requires path == (if segment > 0 then Numbered(stem, run, segment, ext) else stem + Decimal(run) + ext)
    requires run <= UINT32_MAX && e == |stem| + |Decimal(run)|
    requires ext != [] && !IsDigit(ext[0]) && ext[0] != '_'
    ensures ParseUint(path, |stem|) == Some((run, e))
    ensures (if e < |path| && path[e] == '_' then SegmentAt(path, e) else 0) == SegmentOf(segment)
  {
    if segment > 0 {
      NumberedIsParsed(path, stem, run, segment, ext, e);
    } else {
      FirstNumber(path, stem, run, ext, e);
    }
  }

  /** A segment name is parsed back once its marker is found. */
  lemma SegmentNameIsParsed(path: string, stem: string, marker: string, priority: int, run: nat, segment: nat,
                            disk: nat)
    requires path == SegmentName(stem, run, segment)
    requires run <= UINT32_MAX && |stem| >= |marker|
    requires Find(path, marker, 0) == Some(|stem| - |marker|)
    ensures ParseMarked(path, disk, marker, priority, true) == Some(FileMeta(run, disk, priority, SegmentOf(segment)))
  {
    var ext: string, e := ".bin", |stem| + |Decimal(run)|;
    SegmentIsParsed(path, stem, run, segment, ext, e);
    MarkedIsParsed(path, marker, priority, |stem| - |marker|, run, e, SegmentOf(segment), disk);
  }

  lemma MarkedIsParsed(path: string, marker: string, priority: int, at: nat, run: nat, e: nat, segment: int, disk: nat)
    requires Find(path, marker, 0) == Some(at) && ParseUint(path, at + |marker|) == Some((run, e))
    requires Ranked(path, disk, run, e, priority, true) == FileMeta(run, disk, priority, segment)
    ensures ParseMarked(path, disk, marker, priority, true) == Some(FileMeta(run, disk, priority, segment))
  {
    MarkedAt(path, disk, marker, priority, at);
    RankedBehind(path, disk, priority, at + |marker|, run, e);
  }

  lemma MarkedAt(path: string, disk: nat, marker: string, priority: int, at: nat)
    requires Find(path, marker, 0) == Some(at)
    ensures ParseMarked(path, disk, marker, priority, true) == RankBehind(path, disk, at + |marker|, priority, true)
  {
  }

  lemma RankedBehind(path: string, disk: nat, priority: int, behind: nat, run: nat, e: nat)
    requires ParseUint(path, behind) == Some((run, e))
    ensures RankBehind(path, disk, behind, priority, true) == Some(Ranked(path, disk, run, e, priority, true))
  {
  }

  /** A marker printed behind a directory is found there, when the base has none. */
  lemma MarkerBehindDir(base: string, dir: string, pat: string, rest: string, c: char)
    requires |dir| >= 2 && dir[0] == '/' && dir[|dir| - 1] == '/'
    requires pat != [] && '/' !in pat && !Contains(base, pat)
    requires |pat| > |dir| - 2 || (c in pat && c !in dir)
    ensures Find(base + dir + pat + rest, pat, 0) == Some(|base| + |dir|)
  {
    forall k | Occurs(base + dir + pat + rest, pat, k) ensures k >= |base + dir| {
      Assoc(base + dir, pat, rest);
      NotBefore(base, dir, pat + rest, pat, c, k);
    }
    FindsMarker(base + dir, pat, rest);
  }

  /** The part of a name behind its stem. */
  function NumberedTail(run: nat, k: nat, ext: string): string {
    Decimal(run) + "_" + Decimal(k) + ext
  }

  function SegmentTail(run: nat, segment: nat): string {
    if segment > 0 then NumberedTail(run, segment, ".bin") else Decimal(run) + ".bin"
  }

  lemma NumberedHasTail(stem: string, run: nat, k: nat, ext: string)
    ensures Numbered(stem, run, k, ext) == stem + NumberedTail(run, k, ext)
  {
    var d, n := Decimal(run), Decimal(k);
    Assoc(stem, d, "_");
    Assoc(stem, d + "_", n);
    Assoc(stem, d + "_" + n, ext);
  }

  lemma SegmentNameHasTail(stem: string, run: nat, segment: nat)
    ensures SegmentName(stem, run, segment) == stem + SegmentTail(run, segment)
  {
    if segment > 0 { NumberedHasTail(stem, run, segment, ".bin"); } else { Assoc(stem, Decimal(run), ".bin"); }
  }

  /** A letter that is not in the extension is nowhere in a name's tail. */
  lemma TailHasNo(run: nat, k: nat, ext: string, c: char)
    requires !IsDigit(c) && c != '_' && c !in ext
    ensures c !in NumberedTail(run, k, ext) && c !in Decimal(run) + ext
  {
  }

  lemma NotTofBehind(path: string, base: string, dir: string, marker: string, rest: string)
    requires path == base + dir + marker + rest
    requires !IsTofPath(base) && |dir| >= 9 && dir[0] == '/' && rest != [] && rest[|rest| - 1] != 'a'
    requires 'f' !in dir && 'f' !in marker && 'f' !in rest
    ensures !IsTofPath(path)
  {
    Assoc4(base, dir, marker, rest);
    NotTof(base, dir + marker + rest, 3);
  }

  lemma NowhereBehind(path: string, base: string, dir: string, marker: string, rest: string, pat: string, m: nat)
    requires path == base + dir + marker + rest && dir != [] && dir[0] == '/'
    requires '/' !in pat && m < |pat| && !Contains(base, pat)
    requires pat[m] !in dir && pat[m] !in marker && pat[m] !in rest
    ensures Find(path, pat, 0) == None
  {
    Assoc4(base, dir, marker, rest);
    Nowhere(base, dir + marker + rest, pat, m);
  }

  /** What the directory and marker names are made of. */
  lemma NoF()
    ensures 'f' !in READOUT_DIR && 'f' !in TRIGGER_DIR && 'f' !in PPS_DIR
    ensures 'f' !in READOUT_MARKER && 'f' !in TRIGGER_MARKER && 'f' !in PPS_MARKER
  {
  }

  lemma NoG()
    ensures 'G' !in READOUT_DIR && 'G' !in TRIGGER_DIR && 'G' !in PPS_DIR
    ensures 'G' !in TRIGGER_MARKER && 'G' !in PPS_MARKER && READOUT_MARKER[1] == 'G'
  {
  }

  lemma NoW()
    ensures 'w' !in TRIGGER_DIR && 'w' !in PPS_DIR && 'w' !in PPS_MARKER && TRIGGER_MARKER[10] == 'w'
  {
  }

  lemma NoSlash()
    ensures '/' !in READOUT_MARKER && '/' !in TRIGGER_MARKER && '/' !in PPS_MARKER
  {
  }

  lemma RunOfReadout(path: string, at: nat, r: Option<(nat, nat)>)
    requires Find(path, READOUT_MARKER, 0) == Some(at)
    requires ParseUint(path, at + |READOUT_MARKER|) == r
    ensures ReadoutRun(path) == r
  {
  }

  /** A readout name gives back its run and file number. */
  lemma ReadoutRoundTrip(base: string, disk: nat, run: nat, file: nat)
    requires run <= UINT32_MAX
    requires !IsTofPath(base) && !Contains(base, READOUT_MARKER)
    ensures ParseFileMeta(ReadoutName(base, run, file), disk) == FileMeta(run, disk, 1, SegmentOf(file))
  {
    var path, stem, rest := ReadoutName(base, run, file), ReadoutStem(base), NumberedTail(run, file, ".dat");
    var e := |stem| + |Decimal(run)|;
    NumberedHasTail(stem, run, file, ".dat");
    TailHasNo(run, file, ".dat", 'f');
    MarkersAgree();
    NoF();
    NoG();
    NoW();
    NoSlash();
    NotTofBehind(path, base, READOUT_DIR, READOUT_MARKER, rest);
    MarkerBehindDir(base, READOUT_DIR, READOUT_MARKER, rest, 'G');
    NumberedIsParsed(path, stem, run, file, ".dat", e);
    RunOfReadout(path, |base| + |READOUT_DIR|, Some((run, e)));
  }

  /** A trigger name gives back its run and segment. */
  lemma TriggerRoundTrip(base: string, disk: nat, run: nat, segment: nat)
    requires run <= UINT32_MAX
    requires !IsTofPath(base) && !Contains(base, READOUT_MARKER) && !Contains(base, TRIGGER_MARKER)
    ensures ParseFileMeta(SegmentName(TriggerStem(base), run, segment), disk)
         == FileMeta(run, disk, 2, SegmentOf(segment))
  {
    var stem, rest := TriggerStem(base), SegmentTail(run, segment);
    var path := SegmentName(stem, run, segment);
    SegmentNameHasTail(stem, run, segment);
    TailHasNo(run, segment, ".bin", 'f');
    TailHasNo(run, segment, ".bin", 'G');
    MarkersAgree();
    NoF();
    NoG();
    NoW();
    NoSlash();
    NotTofBehind(path, base, TRIGGER_DIR, TRIGGER_MARKER, rest);
    NowhereBehind(path, base, TRIGGER_DIR, TRIGGER_MARKER, rest, READOUT_MARKER, 1);
    MarkerBehindDir(base, TRIGGER_DIR, TRIGGER_MARKER, rest, 'w');
    SegmentNameIsParsed(path, stem, TRIGGER_MARKER, 2, run, segment, disk);
  }

  /** A PPS name gives back its run and segment. */
  lemma PpsRoundTrip(base: string, disk: nat, run: nat, segment: nat)
    requires run <= UINT32_MAX && !IsTofPath(base)
    requires !Contains(base, READOUT_MARKER) && !Contains(base, TRIGGER_MARKER) && !Contains(base, PPS_MARKER)
    ensures ParseFileMeta(SegmentName(PpsStem(base), run, segment), disk) == FileMeta(run, disk, 3, SegmentOf(segment))
  {
    var stem, rest := PpsStem(base), SegmentTail(run, segment);
    var path := SegmentName(stem, run, segment);
    SegmentNameHasTail(stem, run, segment);
    TailHasNo(run, segment, ".bin", 'f');
    TailHasNo(run, segment, ".bin", 'G');
    TailHasNo(run, segment, ".bin", 'w');
    MarkersAgree();
    NoF();
    NoG();
    NoW();
    NoSlash();
    NotTofBehind(path, base, PPS_DIR, PPS_MARKER, rest);
    NowhereBehind(path, base, PPS_DIR, PPS_MARKER, rest, READOUT_MARKER, 1);
    NowhereBehind(path, base, PPS_DIR, PPS_MARKER, rest, TRIGGER_MARKER, 10);
    MarkerBehindDir(base, PPS_DIR, PPS_MARKER, rest, 'x');
    SegmentNameIsParsed(path, stem, PPS_MARKER, 3, run, segment, disk);
  }
}
