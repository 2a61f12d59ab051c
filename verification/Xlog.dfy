/** WAL file names: how PostgreSQL writes them, how Barman compares them (as plain
    strings), and which segments a backup needs (barman/xlog.py). */
module Xlog {
  import opened Wrappers
  import opened Sequences

  datatype Segment = Segment(tli: nat, log: nat, seg: nat)

  /** Every kind of file name that can sit in the WAL archive. `Other` is anything
      that the name parser rejects. */
  datatype WalName =
    | Wal(s: Segment)
    | Label(s: Segment, offset: nat)
    | Partial(s: Segment)
    | History(tli: nat)
    | Other(text: string)

  /** The directory a name is stored in: timeline and log number, or the archive root. */
  datatype Dir = HashDir(tli: nat, log: nat) | Root

  predicate IsAnyXlogFile(n: WalName) { !n.Other? }

  function DirOf(n: WalName): Dir {
    match n
    case Wal(s) => HashDir(s.tli, s.log)
    case Label(s, _) => HashDir(s.tli, s.log)
    case Partial(s) => HashDir(s.tli, s.log)
    case History(_) => Root
    case Other(_) => Root
  }

  function TimelineOf(n: WalName): nat
    requires IsAnyXlogFile(n)
  {
    if n.History? then n.tli else n.s.tli
  }

  // ---------------------------------------------------------------- order

  predicate SegLt(a: Segment, b: Segment) {
    || a.tli < b.tli
    || (a.tli == b.tli && a.log < b.log)
    || (a.tli == b.tli && a.log == b.log && a.seg < b.seg)
  }

  predicate SegLe(a: Segment, b: Segment) { a == b || SegLt(a, b) }

  /** `name >= begin`, for a name compared with a segment name. */
  predicate AtOrAfter(n: WalName, begin: Segment)
    requires IsAnyXlogFile(n)
  {
    if n.History? then begin.tli < n.tli else SegLe(begin, n.s)
  }

  /** `name <= end`: a suffix makes a name larger than the bare segment it extends. */
  predicate AtOrBefore(n: WalName, end: Segment)
    requires IsAnyXlogFile(n)
  {
    match n
    case Wal(s) => SegLe(s, end)
    case History(tli) => tli <= end.tli
    case Label(s, _) => SegLt(s, end)
    case Partial(s) => SegLt(s, end)
  }

  // ---------------------------------------------------------------- the printed names

  predicate StrLe(a: string, b: string)
    decreases |a|
  {
    if a == [] then true
    else if b == [] then false
    else a[0] < b[0] || (a[0] == b[0] && StrLe(a[1..], b[1..]))
  }

  function HexDigit(d: nat): char
    requires d < 16
  {
    "0123456789ABCDEF"[d]
  }

  function Hex(n: nat, width: nat): string
    decreases width, n
  {
    if width == 0 then "" else Hex(n / 16, width - 1) + [HexDigit(n % 16)]
  }

  function Text(n: WalName): string {
    match n
    case Wal(s) => SegmentText(s)
    case Label(s, offset) => SegmentText(s) + ("." + Hex(offset, 8) + ".backup")
    case Partial(s) => SegmentText(s) + ".partial"
    case History(tli) => Hex(tli, 8) + ".history"
    case Other(text) => text
  }

  function SegmentText(s: Segment): string {
    Hex(s.tli, 8) + Hex(s.log, 8) + Hex(s.seg, 8)
  }

  predicate Fits32(s: Segment) {
    s.tli < 0x1_0000_0000 && s.log < 0x1_0000_0000 && s.seg < 0x1_0000_0000
  }

  predicate Printable(n: WalName) {
    match n
    case History(tli) => tli < 0x1_0000_0000
    case Other(_) => false
    case Wal(s) => Fits32(s)
    case Label(s, _) => Fits32(s)
    case Partial(s) => Fits32(s)
  }

  function Pow16(w: nat): nat { if w == 0 then 1 else 16 * Pow16(w - 1) }

  lemma DigitsInOrder(d: nat, e: nat)
    requires d < 16 && e < 16
    ensures HexDigit(d) < HexDigit(e) <==> d < e
    ensures HexDigit(d) == HexDigit(e) <==> d == e
  {
  }

  lemma FirstDigit(c: char, x: string, d: char, y: string)
    ensures StrLe([c] + x, [d] + y) <==> c < d || (c == d && StrLe(x, y))
  {
    assert ([c] + x)[1..] == x && ([d] + y)[1..] == y;
  }

  /** Fixed-width hexadecimal prefixes are compared as the numbers they print. */
  lemma {:induction false} HexPrefixOrder(a: nat, b: nat, w: nat, x: string, y: string)
    requires a < Pow16(w) && b < Pow16(w)
    ensures StrLe(Hex(a, w) + x, Hex(b, w) + y) <==> a < b || (a == b && StrLe(x, y))
    decreases w
  {
    if w == 0 {
      assert Hex(a, w) + x == x && Hex(b, w) + y == y;
    } else {
      var x', y' := [HexDigit(a % 16)] + x, [HexDigit(b % 16)] + y;
      assert Hex(a, w) + x == Hex(a / 16, w - 1) + x';
      assert Hex(b, w) + y == Hex(b / 16, w - 1) + y';
      HexPrefixOrder(a / 16, b / 16, w - 1, x', y');
      FirstDigit(HexDigit(a % 16), x, HexDigit(b % 16), y);
      DigitsInOrder(a % 16, b % 16);
    }
  }

  lemma SegmentTextOrder(a: Segment, b: Segment, x: string, y: string)
    requires Fits32(a) && Fits32(b)
    ensures StrLe(SegmentText(a) + x, SegmentText(b) + y)
       <==> SegLt(a, b) || (a == b && StrLe(x, y))
  {
    Pow16Of8();
    var a2, b2 := Hex(a.seg, 8) + x, Hex(b.seg, 8) + y;
    var a1, b1 := Hex(a.log, 8) + a2, Hex(b.log, 8) + b2;
    assert SegmentText(a) + x == Hex(a.tli, 8) + a1;
    assert SegmentText(b) + y == Hex(b.tli, 8) + b1;
    HexPrefixOrder(a.tli, b.tli, 8, a1, b1);
    HexPrefixOrder(a.log, b.log, 8, a2, b2);
    HexPrefixOrder(a.seg, b.seg, 8, x, y);
  }

  lemma Pow16Of8()
    ensures Pow16(8) == 0x1_0000_0000
  {
    assert Pow16(4) == 0x1_0000;
  }

  /** For names as PostgreSQL and `encode_segment_name` print them, in capitals, the string
      comparisons of the cleanup code mean exactly the orders above. */
  lemma StringOrderIsWalOrder(n: WalName, s: Segment)
    requires Printable(n) && Fits32(s)
    ensures StrLe(SegmentText(s), Text(n)) <==> AtOrAfter(n, s)
    ensures StrLe(Text(n), SegmentText(s)) <==> AtOrBefore(n, s)
  {
    assert SegmentText(s) + "" == SegmentText(s);
    match n
    case Wal(t) =>
      assert SegmentText(t) + "" == SegmentText(t);
      SegmentTextOrder(s, t, "", "");
      SegmentTextOrder(t, s, "", "");
    case Label(t, offset) =>
      var suffix := "." + Hex(offset, 8) + ".backup";
      SegmentTextOrder(s, t, "", suffix);
      SegmentTextOrder(t, s, suffix, "");
    case Partial(t) =>
      SegmentTextOrder(s, t, "", ".partial");
      SegmentTextOrder(t, s, ".partial", "");
    case History(tli) =>
      Pow16Of8();
      var rest := Hex(s.log, 8) + Hex(s.seg, 8);
      assert SegmentText(s) == Hex(s.tli, 8) + rest;
      HexPrefixOrder(s.tli, tli, 8, rest, ".history");
      HexPrefixOrder(tli, s.tli, 8, ".history", rest);
      HexHead(s.log, 8);
      assert rest[0] == Hex(s.log, 8)[0];
      assert '.' < rest[0];
  }

  lemma {:induction false} HexHead(n: nat, w: nat)
    ensures |Hex(n, w)| == w
    ensures w > 0 ==> '0' <= Hex(n, w)[0]
    decreases w
  {
    if w > 0 { HexHead(n / 16, w - 1); }
  }

  // ---------------------------------------------------------------- names as they are read

  /** The pattern of the parser takes hexadecimal digits of either case. */
  function DigitValue(c: char): Option<nat> {
    if '0' <= c <= '9' then Some(c as nat - '0' as nat)
    else if 'A' <= c <= 'F' then Some(10 + (c as nat - 'A' as nat))
    else if 'a' <= c <= 'f' then Some(10 + (c as nat - 'a' as nat))
    else None
  }

  predicate IsHexadecimal(s: string) { forall i :: 0 <= i < |s| ==> DigitValue(s[i]).Some? }

  function HexNumber(s: string): nat
    requires IsHexadecimal(s)
  {
    if s == "" then 0 else 16 * HexNumber(s[..|s| - 1]) + DigitValue(s[|s| - 1]).value
  }

  lemma DigitRoundTrips(d: nat)
    requires d < 16
    ensures DigitValue(HexDigit(d)) == Some(d)
  {
  }

  /** Reading a printed number gives the number. */
  lemma {:induction false} HexRoundTrips(n: nat, w: nat)
    requires n < Pow16(w)
    ensures IsHexadecimal(Hex(n, w)) && HexNumber(Hex(n, w)) == n
    decreases w
  {
    if w > 0 {
      var init := Hex(n / 16, w - 1);
      HexRoundTrips(n / 16, w - 1);
      DigitRoundTrips(n % 16);
      assert Hex(n, w)[..|init|] == init;
    }
  }

  lemma {:induction false} CommonPrefix(p: string, x: string, y: string)
    ensures StrLe(p + x, p + y) <==> StrLe(x, y)
  {
    if p == "" {
      assert p + x == x && p + y == y;
    } else {
      CommonPrefix(p[1..], x, y);
      assert (p + x)[1..] == p[1..] + x && (p + y)[1..] == p[1..] + y;
    }
  }

  lemma {:induction false} PrefixCounts(p: string, c: char)
    requires IsHexadecimal(p) && DigitValue(c).Some?
    ensures IsHexadecimal(p + [c]) && HexNumber(p + [c]) == 16 * HexNumber(p) + DigitValue(c).value
  {
    assert (p + [c])[..|p|] == p;
  }

  lemma Shifted(n: nat, w: nat)
    ensures 16 * (n * w) == n * (16 * w)
  {
  }

  lemma {:induction false} ConcatCounts(p: string, x: string)
    requires IsHexadecimal(p) && IsHexadecimal(x)
    ensures IsHexadecimal(p + x) && HexNumber(p + x) == HexNumber(p) * Pow16(|x|) + HexNumber(x)
    ensures HexNumber(x) < Pow16(|x|)
    decreases |x|
  {
    if x == "" {
      assert p + x == p;
    } else {
      var init, c := x[..|x| - 1], x[|x| - 1];
      ConcatCounts(p, init);
      PrefixCounts(p + init, c);
      PrefixCounts(init, c);
      assert p + x == (p + init) + [c] && x == init + [c];
      Shifted(HexNumber(p), Pow16(|init|));
      assert DigitValue(c).value < 16;
      hide HexNumber, DigitValue, IsHexadecimal;
      assert Pow16(|x|) == 16 * Pow16(|init|);
    }
  }

  lemma HighPartDecides(u: nat, v: nat, w: nat, x: nat, y: nat)
    requires x < w && y < w
    ensures u * w + x <= v * w + y <==> u < v || (u == v && x <= y)
  {
    if u < v {
      assert (u + 1) * w <= v * w;
    } else if v < u {
      assert (v + 1) * w <= u * w;
    }
  }

  lemma NumbersAtFirstDifference(p: string, c: char, x: string, d: char, y: string)
    requires IsHexadecimal(p) && IsHexadecimal(x) && IsHexadecimal(y) && |x| == |y|
    requires DigitValue(c).Some? && DigitValue(d).Some?
    ensures IsHexadecimal(p + [c] + x) && IsHexadecimal(p + [d] + y)
    ensures HexNumber(p + [c] + x) <= HexNumber(p + [d] + y) <==>
      DigitValue(c).value < DigitValue(d).value || (DigitValue(c) == DigitValue(d) && HexNumber(x) <= HexNumber(y))
  {
    PrefixCounts(p, c);
    PrefixCounts(p, d);
    ConcatCounts(p + [c], x);
    ConcatCounts(p + [d], y);
    hide HexNumber, Pow16, IsHexadecimal, DigitValue;
    NumbersDiffer(HexNumber(p), DigitValue(c).value, DigitValue(d).value, HexNumber(p + [c]), HexNumber(p + [d]),
                  Pow16(|x|), HexNumber(x), HexNumber(y));
  }

  lemma NumbersDiffer(h: nat, a: nat, b: nat, u: nat, v: nat, w: nat, x: nat, y: nat)
    requires u == 16 * h + a && v == 16 * h + b && x < w && y < w
    ensures u * w + x <= v * w + y <==> a < b || (a == b && x <= y)
  {
    HighPartDecides(u, v, w, x, y);
  }

  /** For any two names the pattern accepts, compared at their first difference: the smaller string
      is the smaller number if and only if the digit is, or is the same letter in another case and
      the rest decides. Within one case a smaller character is always a smaller digit. */
  lemma OrderAtFirstDifference(p: string, c: char, x: string, d: char, y: string)
    requires IsHexadecimal(p) && IsHexadecimal(x) && IsHexadecimal(y) && |x| == |y|
    requires c < d && DigitValue(c).Some? && DigitValue(d).Some?
    ensures StrLe(p + [c] + x, p + [d] + y)
    ensures IsHexadecimal(p + [c] + x) && IsHexadecimal(p + [d] + y)
    ensures HexNumber(p + [c] + x) <= HexNumber(p + [d] + y) <==>
      DigitValue(c).value < DigitValue(d).value || (DigitValue(c) == DigitValue(d) && HexNumber(x) <= HexNumber(y))
    ensures ('a' <= c || d <= 'F') ==> DigitValue(c).value < DigitValue(d).value
  {
    NumbersAtFirstDifference(p, c, x, d, y);
    hide HexNumber, IsHexadecimal, StrLe;
    assert p + [c] + x == p + ([c] + x) && p + [d] + y == p + ([d] + y);
    CommonPrefix(p, [c] + x, [d] + y);
    FirstDigit(c, x, d, y);
  }

  /** Mixing the cases breaks the order: whatever the names have in common, ending them in a small
      `a` and in a capital `B` gives the smaller number the larger name. */
  lemma MixedCaseBreaksOrder(p: string)
    requires IsHexadecimal(p)
    ensures IsHexadecimal(p + "a") && IsHexadecimal(p + "B")
    ensures HexNumber(p + "a") < HexNumber(p + "B")
    ensures StrLe(p + "B", p + "a") && !StrLe(p + "a", p + "B")
  {
    PrefixCounts(p, 'a');
    PrefixCounts(p, 'B');
    CommonPrefix(p, "B", "a");
    CommonPrefix(p, "a", "B");
    assert !StrLe("a", "B");
  }

  // ---------------------------------------------------------------- where a name puts a file

  function DirText(d: Dir): string {
    match d
    case HashDir(tli, log) => Hex(tli, 8) + Hex(log, 8)
    case Root => ""
  }

  lemma {:induction false} HexLength(n: nat, w: nat)
    ensures |Hex(n, w)| == w
    decreases w
  {
    if w > 0 { HexLength(n / 16, w - 1); }
  }

  lemma SegmentTextParts(s: Segment, rest: string)
    ensures |SegmentText(s) + rest| >= 24
    ensures (SegmentText(s) + rest)[..8] == Hex(s.tli, 8) && (SegmentText(s) + rest)[..16] == Hex(s.tli, 8) + Hex(s.log, 8)
  {
    HexLength(s.tli, 8);
    HexLength(s.log, 8);
    HexLength(s.seg, 8);
    var name := SegmentText(s) + rest;
    assert name[..16] == Hex(s.tli, 8) + Hex(s.log, 8);
  }

  /** A name starts with its timeline; its directory is its first sixteen characters, and the
      archive itself for a history file. */
  lemma NameTellsPlace(n: WalName)
    requires IsAnyXlogFile(n)
    ensures |Text(n)| >= 8 && Text(n)[..8] == Hex(TimelineOf(n), 8)
    ensures if n.History? then DirOf(n) == Root else |Text(n)| >= 16 && DirText(DirOf(n)) == Text(n)[..16]
  {
    match n
    case Wal(s) =>
      SegmentTextParts(s, "");
      assert SegmentText(s) + "" == SegmentText(s);
    case Label(s, offset) => SegmentTextParts(s, "." + Hex(offset, 8) + ".backup");
    case Partial(s) => SegmentTextParts(s, ".partial");
    case History(tli) => HexLength(tli, 8);
  }

  // ---------------------------------------------------------------- required segments

  /** How segment numbers roll over: `perFile` is the last segment number of a log
      file, and releases before 9.3 never use it. */
  datatype Layout = Layout(perFile: nat, skipLast: bool)

  function LayoutOf(version: Option<nat>, segmentSize: nat): Layout {
    Layout(if segmentSize == 0 then 0x7FFFF else 0xFFFF_FFFF / segmentSize,
           version.Some? && version.value < 90300)
  }

  predicate RollsOver(f: Layout, next: nat) {
    next > f.perFile || (f.skipLast && next == f.perFile)
  }

  /** The number of segments in a log file (a roll-over always lands on segment 0). */
  function PerLog(f: Layout): nat {
    if !f.skipLast then f.perFile + 1 else if f.perFile == 0 then 1 else f.perFile
  }

  function SegmentsFrom(cur: Segment, end: Segment, f: Layout): seq<Segment>
    decreases if cur.log <= end.log then end.log - cur.log + 1 else 0,
              if cur.seg <= f.perFile then f.perFile - cur.seg + 1 else 0
  {
    if cur.log < end.log || (cur.log == end.log && cur.seg <= end.seg) then
      [cur] + SegmentsFrom(NextSegment(cur, f), end, f)
    else []
  }

  function NextSegment(cur: Segment, f: Layout): Segment {
    if RollsOver(f, cur.seg + 1) then Segment(cur.tli, cur.log + 1, 0)
    else Segment(cur.tli, cur.log, cur.seg + 1)
  }

  lemma SegmentsStep(cur: Segment, end: Segment, f: Layout)
    requires cur.tli == end.tli
    ensures SegmentsFrom(cur, end, f) ==
      if SegLe(cur, end) then [cur] + SegmentsFrom(NextSegment(cur, f), end, f) else []
  {
  }

  const LOG_SIZE: nat := 0x1_0000_0000

  /** Whether a log file of 4 GiB reaches to the start of its segment number `seg`; for an unknown
      segment size, the most that any size allows. */
  predicate StartsInLog(seg: nat, size: nat) {
    if size == 0 then seg <= 0x7FFFF else seg * size < LOG_SIZE
  }

  /** Whether PostgreSQL writes segment `seg`: before 9.3 it leaves out the last of each log file. */
  predicate IsWritten(seg: nat, version: Option<nat>, size: nat) {
    StartsInLog(seg, size) && (version.Some? && version.value < 90300 ==> StartsInLog(seg + 1, size))
  }

  lemma QuotientBound(n: nat, size: nat, seg: nat)
    requires size > 0
    ensures seg <= n / size <==> seg * size <= n
  {
    assert n == (n / size) * size + n % size;
    if seg <= n / size {
      MulUpTo(seg, n / size, size);
    } else {
      MulUpTo(n / size + 1, seg, size);
      assert (n / size + 1) * size == (n / size) * size + size;
    }
  }

  lemma MulUpTo(a: nat, b: nat, c: nat)
    requires a <= b
    ensures a * c <= b * c
  {
  }

  lemma LayoutIsWritten(seg: nat, version: Option<nat>, size: nat)
    ensures seg < PerLog(LayoutOf(version, size)) <==> seg == 0 || IsWritten(seg, version, size)
  {
    if size > 0 {
      QuotientBound(LOG_SIZE - 1, size, seg);
      QuotientBound(LOG_SIZE - 1, size, seg + 1);
    }
  }

  /** The segments that exist from one to another, on their timeline. */
  predicate IsBetween(s: Segment, begin: Segment, end: Segment, version: Option<nat>, size: nat) {
    SegLe(begin, s) && SegLe(s, end) && (s == begin || s.seg == 0 || IsWritten(s.seg, version, size))
  }

  lemma GeneratedAreBetween(begin: Segment, end: Segment, version: Option<nat>, size: nat, s: Segment)
    requires begin.tli == end.tli
    ensures s in SegmentsFrom(begin, end, LayoutOf(version, size)) <==> IsBetween(s, begin, end, version, size)
  {
    SegmentsFromExactly(begin, end, LayoutOf(version, size), s);
    LayoutIsWritten(s.seg, version, size);
  }

  /** For a segment size that divides the 4 GiB, as all of PostgreSQL's do: a segment is written if
      it ends within its log file, and before 9.3 if the next one does as well. */
  lemma WholeSegmentsAreWritten(seg: nat, version: Option<nat>, size: nat)
    requires 0 < size < LOG_SIZE && LOG_SIZE % size == 0
    ensures IsWritten(seg, version, size)
       <==> (seg + 1) * size <= LOG_SIZE && (version.Some? && version.value < 90300 ==> (seg + 2) * size <= LOG_SIZE)
    ensures IsWritten(0, version, size)
  {
    EndsInLog(seg, size);
    EndsInLog(seg + 1, size);
    EndsInLog(0, size);
    EndsInLog(1, size);
    var k := LOG_SIZE / size;
    assert LOG_SIZE == k * size;
    if k < 2 { MulUpTo(k, 1, size); }
    MulUpTo(2, k, size);
  }

  lemma EndsInLog(seg: nat, size: nat)
    requires 0 < size && LOG_SIZE % size == 0
    ensures seg * size < LOG_SIZE <==> (seg + 1) * size <= LOG_SIZE
  {
    var k := LOG_SIZE / size;
    assert LOG_SIZE == k * size;
    assert (seg + 1) * size == seg * size + size;
    if seg < k { MulUpTo(seg + 1, k, size); } else { MulUpTo(k, seg, size); }
  }

  /** The generator loop: the segments from `begin` to `end`, in order. */
  method GenerateSegmentNames(begin: Segment, end: Segment, version: Option<nat>, segmentSize: nat)
    returns (names: seq<Segment>)
    requires begin.tli == end.tli
    ensures names == SegmentsFrom(begin, end, LayoutOf(version, segmentSize))
    ensures forall s :: s in names <==> IsBetween(s, begin, end, version, segmentSize)
    ensures SegmentsIncrease(names)
  {
    hide SegmentsFrom, LayoutOf, IsBetween;
    var f := LayoutOf(version, segmentSize);
    var log: nat, seg: nat := begin.log, begin.seg;
    names := [];
    while log < end.log || (log == end.log && seg <= end.seg)
      invariant names + SegmentsFrom(Segment(begin.tli, log, seg), end, f) == SegmentsFrom(begin, end, f)
      decreases if log <= end.log then end.log - log + 1 else 0,
                if seg <= f.perFile then f.perFile - seg + 1 else 0
    {
      var cur := Segment(begin.tli, log, seg);
      SegmentsStep(cur, end, f);
      Associative(names, [cur], SegmentsFrom(NextSegment(cur, f), end, f));
      names := names + [cur];
      seg := seg + 1;
      if RollsOver(f, seg) {
        seg := 0;
        log := log + 1;
      }
    }
    SegmentsStep(Segment(begin.tli, log, seg), end, f);
    assert names + [] == names;
    SegmentsFromIncreasing(begin, end, f);
    forall s ensures s in names <==> IsBetween(s, begin, end, version, segmentSize) {
      GeneratedAreBetween(begin, end, version, segmentSize, s);
    }
  }

  /** The generator yields exactly the segments that exist between its two ends: its
      own start, and every later one whose number the layout allows. */
  lemma {:induction false} SegmentsFromExactly(cur: Segment, end: Segment, f: Layout, s: Segment)
    requires cur.tli == end.tli
    ensures s in SegmentsFrom(cur, end, f)
       <==> SegLe(cur, s) && SegLe(s, end) && (s == cur || s.seg < PerLog(f))
    decreases if cur.log <= end.log then end.log - cur.log + 1 else 0,
              if cur.seg <= f.perFile then f.perFile - cur.seg + 1 else 0
  {
    if cur.log < end.log || (cur.log == end.log && cur.seg <= end.seg) {
      SegmentsFromExactly(NextSegment(cur, f), end, f, s);
    }
  }

  ghost predicate SegmentsIncrease(r: seq<Segment>) {
    forall i, j :: 0 <= i < j < |r| ==> SegLt(r[i], r[j])
  }

  lemma {:induction false} SegmentsFromIncreasing(cur: Segment, end: Segment, f: Layout)
    requires cur.tli == end.tli
    ensures SegmentsIncrease(SegmentsFrom(cur, end, f))
    decreases if cur.log <= end.log then end.log - cur.log + 1 else 0,
              if cur.seg <= f.perFile then f.perFile - cur.seg + 1 else 0
  {
    if cur.log < end.log || (cur.log == end.log && cur.seg <= end.seg) {
      var next := NextSegment(cur, f);
      SegmentsFromIncreasing(next, end, f);
      var rest := SegmentsFrom(next, end, f);
      assert SegmentsFrom(cur, end, f) == [cur] + rest;
      forall j | 0 <= j < |rest| ensures SegLt(cur, rest[j]) {
        SegmentsFromExactly(next, end, f, rest[j]);
      }
    }
  }
}
