/** File names of frames: printing, parsing, the directory pattern and the order of the sorted listing. */
module FrameNames {
  import opened Common

  const FRAMES_DIR := "frames/"
  const ANNOTATED_DIR := "annotated/"
  const PREFIX := "frame_"
  const SUFFIX := ".jpg"
  const CAPACITY := 100000

  // ---------- decimal digits ----------

  predicate Digit(c: char) { '0' <= c <= '9' }

  predicate Digits(s: string) { forall i | 0 <= i < |s| :: Digit(s[i]) }

  function DigitValue(c: char): nat
    requires Digit(c)
  {
    c as int - '0' as int
  }

  function DigitChar(d: nat): char
    requires d < 10
  {
    ('0' as int + d) as char
  }

  function Value(s: string): nat
    requires Digits(s)
  {
    if s == [] then 0 else 10 * Value(s[..|s| - 1]) + DigitValue(s[|s| - 1])
  }

  function Pow10(w: nat): nat { if w == 0 then 1 else 10 * Pow10(w - 1) }

  /** n in decimal, filled with zeros on the left to at least w digits (the format `0wd`). */
  function Pad(n: nat, w: nat): string
    decreases n + w
  {
    if n < 10 && w <= 1 then [DigitChar(n)]
    else Pad(n / 10, if w > 0 then w - 1 else 0) + [DigitChar(n % 10)]
  }

  lemma {:induction false} ValueBound(s: string)
    requires Digits(s)
    ensures Value(s) < Pow10(|s|)
  {
    if s == [] {
    } else {
      ValueBound(s[..|s| - 1]);
    }
  }

  lemma {:induction false} ValueHead(s: string)
    requires Digits(s) && s != []
    ensures Value(s) == DigitValue(s[0]) * Pow10(|s| - 1) + Value(s[1..])
  {
    if |s| <= 1 {
    } else {
      var t := s[..|s| - 1];
      ValueHead(t);
      assert t[1..] == s[1..][..|s| - 2];
      assert Value(s[1..]) == 10 * Value(t[1..]) + DigitValue(s[|s| - 1]);
      Regroup(DigitValue(s[0]), Pow10(|t| - 1));
    }
  }

  lemma Regroup(d: nat, p: nat)
    ensures 10 * (d * p) == d * (10 * p)
  {
  }

  /** Printing then reading gives the number back; w is the exact length as long as n has at most w digits. */
  lemma {:induction false} PadValue(n: nat, w: nat)
    ensures Digits(Pad(n, w)) && Value(Pad(n, w)) == n
    ensures |Pad(n, w)| >= 1 && |Pad(n, w)| >= w
    ensures w >= 1 ==> (|Pad(n, w)| == w <==> n < Pow10(w))
    decreases n + w
  {
    if n < 10 && w <= 1 {
      assert Pow10(1) == 10 * Pow10(0);
    } else {
      var w' := if w > 0 then w - 1 else 0;
      PadValue(n / 10, w');
      var q := Pad(n / 10, w');
      assert Pad(n, w)[..|q|] == q;
      if w == 1 {
        assert Pow10(1) == 10 * Pow10(0);
      }
    }
  }

  /** Reading then printing gives the digits back. */
  lemma {:induction false} ValuePad(s: string)
    requires Digits(s) && s != []
    ensures Pad(Value(s), |s|) == s
  {
    var t, d := s[..|s| - 1], DigitValue(s[|s| - 1]);
    assert s == t + [s[|s| - 1]];
    if |s| == 1 {
      assert Value(t) == 0;
    } else {
      ValuePad(t);
      assert Value(s) / 10 == Value(t) && Value(s) % 10 == d;
    }
  }

  // ---------- the order of Python strings ----------

  predicate Less(a: string, b: string) {
    b != [] && (a == [] || a[0] < b[0] || (a[0] == b[0] && Less(a[1..], b[1..])))
  }

  /** a and b agree up to position i; there a ends, or has the smaller character. */
  ghost predicate Precedes(a: string, b: string, i: nat) {
    i <= |a| && i < |b| && a[..i] == b[..i] && (i < |a| ==> a[i] < b[i])
  }

  /** The order by the first difference, a prefix coming first. */
  lemma {:induction false} LessIff(a: string, b: string)
    ensures Less(a, b) <==> exists i: nat :: Precedes(a, b, i)
  {
    if a == [] || b == [] || a[0] != b[0] {
      assert Less(a, b) ==> Precedes(a, b, 0);
      forall i: nat | Precedes(a, b, i) ensures Less(a, b) {
        if i > 0 { assert a[..i][0] == b[..i][0]; }
      }
    } else {
      LessIff(a[1..], b[1..]);
      if Less(a, b) {
        var i: nat :| Precedes(a[1..], b[1..], i);
        assert a[..i + 1] == [a[0]] + a[1..][..i] && b[..i + 1] == [b[0]] + b[1..][..i];
        assert Precedes(a, b, i + 1);
      }
      forall i: nat | Precedes(a, b, i) ensures Less(a, b) {
        assert a[1..][..i - 1] == a[..i][1..] && b[1..][..i - 1] == b[..i][1..];
        assert Precedes(a[1..], b[1..], i - 1);
      }
    }
  }

  lemma {:induction false} LessTotal(a: string, b: string)
    ensures Less(a, b) || Less(b, a) || a == b
    ensures !(Less(a, b) && Less(b, a))
    ensures !Less(a, a)
  {
    if a == [] || b == [] {
    } else {
      LessTotal(a[1..], b[1..]);
      assert a == [a[0]] + a[1..] && b == [b[0]] + b[1..];
    }
    if a == [] {
    } else {
      LessTotal(a[1..], a[1..]);
    }
  }

  lemma {:induction false} LessTransitive(a: string, b: string, c: string)
    requires !Less(b, a) && !Less(c, b)
    ensures !Less(c, a)
  {
    if a == [] || b == [] || c == [] {
    } else if Less(c, a) && a[0] == b[0] == c[0] {
      LessTransitive(a[1..], b[1..], c[1..]);
    }
  }

  lemma {:induction false} LessAffixes(p: string, a: string, b: string, s: string)
    requires |a| == |b|
    ensures Less(p + a + s, p + b + s) <==> Less(a, b)
    decreases |p| + |a|
  {
    if p != [] {
      assert (p + a + s)[1..] == p[1..] + a + s && (p + b + s)[1..] == p[1..] + b + s;
      LessAffixes(p[1..], a, b, s);
    } else if a == [] {
      assert p + a + s == s && p + b + s == s;
      LessTotal(s, s);
    } else {
      assert (p + a + s)[1..] == p + a[1..] + s && (p + b + s)[1..] == p + b[1..] + s;
      LessAffixes(p, a[1..], b[1..], s);
    }
  }

  /** Zero-padded numbers of one width are ordered as strings exactly as they are ordered as numbers. */
  lemma {:induction false} OrderIsNumeric(a: string, b: string)
    requires Digits(a) && Digits(b) && |a| == |b|
    ensures Less(a, b) <==> Value(a) < Value(b)
    ensures a == b <==> Value(a) == Value(b)
  {
    if a == [] {
    } else {
      ValueHead(a); ValueHead(b);
      ValueBound(a[1..]); ValueBound(b[1..]);
      OrderIsNumeric(a[1..], b[1..]);
      assert a == [a[0]] + a[1..] && b == [b[0]] + b[1..];
      var u, v, p := DigitValue(a[0]), DigitValue(b[0]), Pow10(|a| - 1);
      if u < v { Scale(u, v, p); } else if v < u { Scale(v, u, p); }
    }
  }

  lemma {:induction false} Scale(u: nat, v: nat, p: nat)
    requires u < v
    ensures u * p + p <= v * p
    decreases v
  {
    assert v * p == (v - 1) * p + p;
    if u >= v - 1 {
    } else {
      Scale(u, v - 1, p);
    }
  }

  // ---------- sorted() ----------

  function Insert(x: string, s: seq<string>): seq<string> {
    if s == [] || !Less(s[0], x) then [x] + s else [s[0]] + Insert(x, s[1..])
  }

  function Sort(s: seq<string>): seq<string> {
    if s == [] then [] else Insert(s[0], Sort(s[1..]))
  }

  ghost predicate Ordered(s: seq<string>) {
    forall i, j | 0 <= i < j < |s| :: !Less(s[j], s[i])
  }

  lemma {:induction false} InsertOrdered(x: string, s: seq<string>)
    requires Ordered(s)
    ensures Ordered(Insert(x, s)) && multiset(Insert(x, s)) == multiset(s) + multiset{x}
  {
    if s == [] {
    } else if !Less(s[0], x) {
      forall j | 0 <= j < |s| ensures !Less(s[j], x) {
        if j > 0 { LessTransitive(x, s[0], s[j]); }
      }
    } else {
      InsertOrdered(x, s[1..]);
      assert s == [s[0]] + s[1..];
      var t := Insert(x, s[1..]);
      LessTotal(s[0], x);
      forall y | y in t ensures !Less(y, s[0]) {
        assert y in multiset(t);
        if y != x {
          assert y in multiset(s[1..]);
          var j :| 0 <= j < |s[1..]| && s[1..][j] == y;
          assert y == s[j + 1];
        }
      }
    }
  }

  lemma {:induction false} SortIsSorted(s: seq<string>)
    ensures Ordered(Sort(s)) && multiset(Sort(s)) == multiset(s)
  {
    if s == [] {
    } else {
      SortIsSorted(s[1..]);
      InsertOrdered(s[0], Sort(s[1..]));
      assert s == [s[0]] + s[1..];
    }
  }

  lemma LeastFirst(s: seq<string>, t: seq<string>)
    requires Ordered(s) && s != [] && t != [] && t[0] in multiset(s)
    ensures !Less(t[0], s[0])
  {
    var i :| 0 <= i < |s| && s[i] == t[0];
    LessTotal(s[0], s[0]);
  }

  lemma SameTail(s: seq<string>, t: seq<string>)
    requires s != [] && t != [] && s[0] == t[0] && multiset(s) == multiset(t)
    ensures multiset(s[1..]) == multiset(t[1..])
  {
    assert s == [s[0]] + s[1..] && t == [t[0]] + t[1..];
    assert multiset(s[1..]) == multiset(s) - multiset{s[0]} == multiset(t[1..]);
  }

  lemma {:induction false} OrderedUnique(s: seq<string>, t: seq<string>)
    requires Ordered(s) && Ordered(t) && multiset(s) == multiset(t)
    ensures s == t
  {
    assert |s| == |multiset(s)| == |multiset(t)| == |t|;
    if s == [] {
    } else {
      assert s[0] in multiset(t) && t[0] in multiset(s);
      LeastFirst(s, t);
      LeastFirst(t, s);
      LessTotal(s[0], t[0]);
      SameTail(s, t);
      OrderedUnique(s[1..], t[1..]);
    }
  }

  /** Whatever algorithm sorts the listing, and in whatever order the listing comes, the result is Sort. */
  lemma SortIsCanonical(s: seq<string>, t: seq<string>)
    requires Ordered(t) && multiset(t) == multiset(s)
    ensures t == Sort(s)
  {
    SortIsSorted(s);
    OrderedUnique(t, Sort(s));
  }

  lemma {:induction false} DistinctCounts(s: seq<string>)
    ensures Distinct(s) <==> forall x :: multiset(s)[x] <= 1
  {
    if s == [] {
    } else {
      var t, y := s[..|s| - 1], s[|s| - 1];
      assert s == t + [y];
      DistinctCounts(t);
      if Distinct(s) {
        assert y !in t;
      } else if Distinct(t) {
        var i, j :| 0 <= i < j < |s| && s[i] == s[j];
        assert j == |s| - 1 && t[i] == y;
        assert y in multiset(t);
        assert multiset(s)[y] >= 2;
      } else {
        var x :| multiset(t)[x] > 1;
        assert multiset(s)[x] > 1;
      }
    }
  }

  /** Without repetitions in the listing, neighbours in the sorted list are strictly ordered. */
  lemma SortDistinct(s: seq<string>)
    requires Distinct(s)
    ensures Distinct(Sort(s)) && |Sort(s)| == |s|
    ensures forall x :: x in Sort(s) <==> x in s
    ensures forall i, j | 0 <= i < j < |s| :: Less(Sort(s)[i], Sort(s)[j])
  {
    SortIsSorted(s);
    var t := Sort(s);
    assert |multiset(t)| == |multiset(s)|;
    DistinctCounts(s);
    DistinctCounts(t);
    forall x ensures x in t <==> x in s {
      assert x in t <==> x in multiset(t);
    }
    forall i, j | 0 <= i < j < |t| ensures Less(t[i], t[j]) {
      LessTotal(t[i], t[j]);
    }
  }

  // ---------- int() ----------

  /** ASCII white space to Python. */
  predicate Space(c: char) { c == ' ' || 9 <= c as int <= 13 || 28 <= c as int <= 31 }

  /** Tab, line feed, vertical tab, form feed, carriage return, the four separators, and blank. */
  lemma SpaceIs(c: char)
    ensures Space(c) <==> c as int in {9, 10, 11, 12, 13, 28, 29, 30, 31, 32}
  {
  }

  function StripLeft(s: string): string { if s != [] && Space(s[0]) then StripLeft(s[1..]) else s }

  function StripRight(s: string): string {
    if s != [] && Space(s[|s| - 1]) then StripRight(s[..|s| - 1]) else s
  }

  /** Digits, with single underscores allowed between them, read after a number worth acc. */
  function MoreDigits(t: string, acc: nat): Option<nat> {
    if t == [] then Some(acc)
    else if Digit(t[0]) then MoreDigits(t[1..], 10 * acc + DigitValue(t[0]))
    else if t[0] == '_' && |t| > 1 && Digit(t[1]) then MoreDigits(t[2..], 10 * acc + DigitValue(t[1]))
    else None
  }

  function Magnitude(t: string): Option<nat> {
    if t == [] || !Digit(t[0]) then None else MoreDigits(t[1..], DigitValue(t[0]))
  }

  /** A sign, if there is one, and digits. */
  function Number(t: string): Option<int> {
    if t != [] && (t[0] == '+' || t[0] == '-') then
      match Magnitude(t[1..])
      case None => None
      case Some(v) => Some(if t[0] == '-' then -(v as int) else v as int)
    else
      match Magnitude(t)
      case None => None
      case Some(v) => Some(v)
  }

  /** int(s) over ASCII: None stands for the ValueError. */
  function PyInt(s: string): Option<int> { Number(StripLeft(StripRight(s))) }

  lemma {:induction false} MoreDigitsValue(done: string, t: string)
    requires Digits(done) && Digits(t)
    ensures Digits(done + t) && MoreDigits(t, Value(done)) == Some(Value(done + t))
    decreases |t|
  {
    if t == [] {
      assert done + t == done;
    } else {
      var next := done + [t[0]];
      assert next[..|done|] == done;
      MoreDigitsValue(next, t[1..]);
      assert next + t[1..] == done + t;
    }
  }

  lemma PyIntDigits(s: string)
    requires Digits(s) && s != []
    ensures PyInt(s) == Some(Value(s))
  {
    assert Digit(s[0]) && Digit(s[|s| - 1]);
    assert StripRight(s) == s && StripLeft(s) == s;
    MagnitudeDigits(s);
  }

  lemma MagnitudeDigits(s: string)
    requires Digits(s) && s != []
    ensures Magnitude(s) == Some(Value(s))
  {
    var head := [s[0]];
    assert s == head + s[1..];
    assert head[..0] == [] && Value(head) == DigitValue(s[0]);
    MoreDigitsValue(head, s[1..]);
  }

  // ---------- which strings are numbers ----------

  /** Digits and underscores, ending in a digit, without two underscores in a row. */
  ghost predicate Continuation(t: string) {
    && (forall i | 0 <= i < |t| :: Digit(t[i]) || t[i] == '_')
    && (t != [] ==> Digit(t[|t| - 1]))
    && (forall i | 0 <= i < |t| - 1 :: t[i] == '_' ==> t[i + 1] != '_')
  }

  /** The same, also beginning with a digit. */
  ghost predicate Numeral(t: string) { t != [] && Digit(t[0]) && Continuation(t) }

  /** Without the underscores. */
  function Plain(t: string): string {
    if t == [] then [] else (if t[0] == '_' then [] else [t[0]]) + Plain(t[1..])
  }

  lemma ContinuationTail(t: string)
    requires t != []
    ensures Continuation(t) ==> Continuation(t[1..])
    ensures Digit(t[0]) ==> (Continuation(t) <==> Continuation(t[1..]))
    ensures t[0] == '_' && Continuation(t) ==> |t| > 1 && Digit(t[1])
    ensures t[0] == '_' && |t| > 1 && Digit(t[1]) ==> (Continuation(t) <==> Continuation(t[1..]))
    ensures Continuation(t) ==> Digit(t[0]) || t[0] == '_'
  {
    var u := t[1..];
    assert forall i | 0 <= i < |u| :: u[i] == t[i + 1];
    if Continuation(u) && (Digit(t[0]) || (t[0] == '_' && |t| > 1 && Digit(t[1]))) {
      forall i | 0 <= i < |t| ensures Digit(t[i]) || t[i] == '_' {
        if i > 0 { assert Digit(u[i - 1]) || u[i - 1] == '_'; }
      }
      forall i | 0 <= i < |t| - 1 ensures t[i] == '_' ==> t[i + 1] != '_' {
        if i > 0 { assert u[i - 1] == '_' ==> u[i] != '_'; }
      }
    }
  }

  lemma ValueNext(done: string, c: char)
    requires Digits(done) && Digit(c)
    ensures Digits(done + [c]) && Value(done + [c]) == 10 * Value(done) + DigitValue(c)
  {
    assert (done + [c])[..|done|] == done;
  }

  /** What MoreDigits makes of t after the digits in `done`. */
  ghost predicate Reads(done: string, t: string)
    requires Digits(done)
  {
    if Continuation(t) then Digits(done + Plain(t)) && MoreDigits(t, Value(done)) == Some(Value(done + Plain(t)))
    else MoreDigits(t, Value(done)) == None
  }

  lemma AppendHead(done: string, c: char, rest: string)
    ensures done + [c] + rest == done + ([c] + rest)
  {
  }

  lemma ReadsDigit(done: string, t: string)
    requires Digits(done) && t != [] && Digit(t[0])
    requires Digits(done + [t[0]]) && Reads(done + [t[0]], t[1..])
    ensures Reads(done, t)
  {
    ContinuationTail(t);
    ValueNext(done, t[0]);
    AppendHead(done, t[0], Plain(t[1..]));
  }

  lemma PlainUnderscore(t: string)
    requires |t| > 1 && t[0] == '_' && Digit(t[1])
    ensures Plain(t) == [t[1]] + Plain(t[2..])
    ensures Continuation(t) <==> Continuation(t[2..])
  {
    ContinuationTail(t);
    ContinuationTail(t[1..]);
    assert t[1..][1..] == t[2..];
    assert Plain(t) == Plain(t[1..]);
  }

  lemma ReadsUnderscore(done: string, t: string)
    requires Digits(done) && |t| > 1 && t[0] == '_' && Digit(t[1])
    requires Digits(done + [t[1]]) && Reads(done + [t[1]], t[2..])
    ensures Reads(done, t)
  {
    PlainUnderscore(t);
    ValueNext(done, t[1]);
    AppendHead(done, t[1], Plain(t[2..]));
  }

  lemma {:induction false} MoreDigitsIs(done: string, t: string)
    requires Digits(done)
    ensures Reads(done, t)
    decreases |t|
  {
    if t == [] {
      assert done + Plain(t) == done;
    } else if Digit(t[0]) {
      ValueNext(done, t[0]);
      MoreDigitsIs(done + [t[0]], t[1..]);
      ReadsDigit(done, t);
    } else if t[0] == '_' && |t| > 1 && Digit(t[1]) {
      ValueNext(done, t[1]);
      MoreDigitsIs(done + [t[1]], t[2..]);
      ReadsUnderscore(done, t);
    } else {
      ContinuationTail(t);
    }
  }

  lemma MagnitudeIs(t: string)
    ensures Numeral(t) ==> Digits(Plain(t)) && Magnitude(t) == Some(Value(Plain(t)))
    ensures !Numeral(t) ==> Magnitude(t) == None
  {
    if t != [] && Digit(t[0]) {
      ContinuationTail(t);
      var none: string := [];
      ValueNext(none, t[0]);
      assert none + [t[0]] == [t[0]];
      MoreDigitsIs([t[0]], t[1..]);
      assert [t[0]] + Plain(t[1..]) == Plain(t);
    }
  }

  ghost predicate Spaces(s: string) { forall i | 0 <= i < |s| :: Space(s[i]) }

  /** No white space at either end. */
  ghost predicate Trimmed(s: string) { s == [] || (!Space(s[0]) && !Space(s[|s| - 1])) }

  lemma {:induction false} StripRightOf(s: string, r: string)
    requires Spaces(r) && (s == [] || !Space(s[|s| - 1]))
    ensures StripRight(s + r) == s
  {
    if r == [] {
      assert s + r == s;
    } else {
      assert (s + r)[..|s + r| - 1] == s + r[..|r| - 1];
      StripRightOf(s, r[..|r| - 1]);
    }
  }

  lemma {:induction false} StripLeftOf(l: string, s: string)
    requires Spaces(l) && (s == [] || !Space(s[0]))
    ensures StripLeft(l + s) == s
  {
    if l == [] {
      assert l + s == s;
    } else {
      assert (l + s)[1..] == l[1..] + s;
      StripLeftOf(l[1..], s);
    }
  }

  lemma Stripped(l: string, s: string, r: string)
    requires Spaces(l) && Spaces(r) && Trimmed(s)
    ensures StripLeft(StripRight(l + s + r)) == s
  {
    if s == [] {
      assert l + s + r == [] + (l + r);
      StripRightOf([], l + r);
    } else {
      StripRightOf(l + s, r);
      StripLeftOf(l, s);
    }
  }

  /** The value of a numeral after a sign, if there is one. */
  function Signed(sign: string, magnitude: int): int { if sign != [] && sign[0] == '-' then -magnitude else magnitude }

  lemma NumberUnsigned(t: string)
    requires t != [] ==> t[0] != '+' && t[0] != '-'
    ensures Magnitude(t).None? ==> Number(t) == None
    ensures Magnitude(t).Some? ==> Number(t) == Some(Magnitude(t).value)
  {
  }

  lemma NumberSigned(c: char, t: string)
    requires c == '+' || c == '-'
    ensures Magnitude(t).None? ==> Number([c] + t) == None
    ensures Magnitude(t).Some? ==> Number([c] + t) == Some(Signed([c], Magnitude(t).value))
  {
    var u := [c] + t;
    assert u[0] == c && u[1..] == t;
  }

  lemma NumberIs(sign: string, t: string)
    requires |sign| <= 1 && (sign != [] ==> sign[0] == '+' || sign[0] == '-')
    requires sign == [] && t != [] ==> t[0] != '+' && t[0] != '-'
    ensures Numeral(t) ==> Digits(Plain(t)) && Number(sign + t) == Some(Signed(sign, Value(Plain(t))))
    ensures !Numeral(t) ==> Number(sign + t) == None
  {
    MagnitudeIs(t);
    if sign == [] {
      assert sign + t == t;
      NumberUnsigned(t);
    } else {
      assert sign == [sign[0]];
      NumberSigned(sign[0], t);
    }
  }

  /**
   * What int makes of any string, taken as white space, a sign, a rest and white space again: a number exactly if the
   * rest consists of digits, with single underscores allowed between them.
   */
  lemma PyIntIs(l: string, sign: string, t: string, r: string)
    requires Spaces(l) && Spaces(r) && Trimmed(sign + t)
    requires |sign| <= 1 && (sign != [] ==> sign[0] == '+' || sign[0] == '-')
    requires sign == [] && t != [] ==> t[0] != '+' && t[0] != '-'
    ensures Numeral(t) ==> Digits(Plain(t)) && PyInt(l + (sign + t) + r) == Some(Signed(sign, Value(Plain(t))))
    ensures !Numeral(t) ==> PyInt(l + (sign + t) + r) == None
  {
    NumberIs(sign, t);
    Stripped(l, sign + t, r);
  }

  lemma SignedStrip(c: char, d: string)
    requires (c == '+' || c == '-') && Digits(d) && d != []
    ensures StripLeft(StripRight([c] + d)) == [c] + d
  {
    var u := [c] + d;
    assert u[|u| - 1] == d[|d| - 1];
  }

  /** A sign and digits. */
  lemma SignedField(c: char, d: string)
    requires (c == '+' || c == '-') && Digits(d) && d != []
    ensures PyInt([c] + d) == Some(Signed([c], Value(d)))
  {
    SignedStrip(c, d);
    NumberSigned(c, d);
    MagnitudeDigits(d);
  }

  // ---------- get_frame_number ----------

  /** os.path.basename with '/' as the separator. */
  function BaseName(p: string): string {
    if p == [] || p[|p| - 1] == '/' then [] else BaseName(p[..|p| - 1]) + [p[|p| - 1]]
  }

  function LastDot(p: string): int {
    if p == [] then -1 else if p[|p| - 1] == '.' then |p| - 1 else LastDot(p[..|p| - 1])
  }

  /** os.path.splitext(p)[0] for a base name: leading dots do not start an extension. */
  function Root(p: string): string {
    var d := LastDot(p);
    if 0 <= d < |p| && exists i | 0 <= i < d :: p[i] != '.' then p[..d] else p
  }

  /** p.replace("frame_", ""): every occurrence, scanning from the left. */
  function DropPrefix(p: string): string {
    if |p| < |PREFIX| then p
    else if p[..|PREFIX|] == PREFIX then DropPrefix(p[|PREFIX|..])
    else [p[0]] + DropPrefix(p[1..])
  }

  function GetFrameNumber(path: string): Option<int> {
    PyInt(DropPrefix(Root(BaseName(path))))
  }

  /** The name the server gives to frame n, and the detector prints for it. */
  function FrameName(n: nat): string { PREFIX + Pad(n, 5) + SUFFIX }

  function FramePath(n: nat): string { FRAMES_DIR + FrameName(n) }

  /** A name of the folder that the pattern frame_?????.jpg selects. */
  predicate GlobMatch(name: string) {
    |name| == 15 && name[..6] == PREFIX && name[11..] == SUFFIX
  }

  lemma {:induction false} BaseNameOf(dir: string, name: string)
    requires dir != [] && dir[|dir| - 1] == '/' && '/' !in name
    ensures BaseName(dir + name) == name
  {
    if name == [] {
      assert dir + name == dir;
    } else {
      var t := name[..|name| - 1];
      assert (dir + name)[..|dir + name| - 1] == dir + t;
      BaseNameOf(dir, t);
      assert name == t + [name[|name| - 1]];
    }
  }

  lemma RootOf(stem: string)
    requires stem != [] && stem[0] != '.'
    ensures Root(stem + SUFFIX) == stem
  {
    var p := stem + SUFFIX;
    var p1, p2, p3 := p[..|p| - 1], p[..|p| - 2], p[..|p| - 3];
    assert p1[..|p1| - 1] == p2 && p2[..|p2| - 1] == p3;
    assert p[|p| - 1] == 'g' && p1[|p1| - 1] == 'p' && p2[|p2| - 1] == 'j' && p3[|p3| - 1] == '.';
    assert LastDot(p) == LastDot(p1) == LastDot(p2) == LastDot(p3) == |stem|;
    assert p[0] != '.';
    assert p[..|stem|] == stem;
  }

  lemma {:induction false} DropPrefixKeeps(field: string)
    requires |field| < |PREFIX| || Digits(field)
    ensures DropPrefix(field) == field
  {
    if |field| < |PREFIX| {
    } else {
      assert field[..|PREFIX|][0] == field[0];
      DropPrefixKeeps(field[1..]);
    }
  }

  /**
   * A path built from a field reads as the field does: directory, extension and prefix all come off. The field
   * may be any five characters, or a number of any length.
   */
  lemma FieldNumber(field: string)
    requires '/' !in field
    requires |field| < |PREFIX| || Digits(field)
    ensures GetFrameNumber(FRAMES_DIR + (PREFIX + field + SUFFIX)) == PyInt(field)
  {
    var stem := PREFIX + field;
    BaseNameOf(FRAMES_DIR, stem + SUFFIX);
    RootOf(stem);
    assert stem[..|PREFIX|] == PREFIX && stem[|PREFIX|..] == field;
    DropPrefixKeeps(field);
  }

  /** Printing a number as a frame name and reading it back gives the number, also beyond five digits. */
  lemma ParsePrinted(n: nat)
    ensures GetFrameNumber(FramePath(n)) == Some(n)
  {
    PadValue(n, 5);
    FieldNumber(Pad(n, 5));
    PyIntDigits(Pad(n, 5));
  }

  /** A path of the shape frames/frame_ddddd.jpg. */
  predicate DigitPath(p: string) {
    |p| == 22 && p[..7] == FRAMES_DIR && GlobMatch(p[7..]) && Digits(p[13..18])
  }

  /** Reading such a path always succeeds, and printing the number found gives the path back. */
  lemma PrintParsed(p: string)
    requires DigitPath(p)
    ensures GetFrameNumber(p).Some? && 0 <= GetFrameNumber(p).value < CAPACITY
    ensures GetFrameNumber(p).value == Value(p[13..18])
    ensures FramePath(GetFrameNumber(p).value) == p
  {
    var field := p[13..18];
    assert p == FRAMES_DIR + (PREFIX + field + SUFFIX) by {
      assert p == p[..7] + p[7..];
      assert p[7..] == p[7..][..6] + p[13..18] + p[7..][11..];
    }
    FieldNumber(field);
    PyIntDigits(field);
    ValuePad(field);
    ValueBound(field);
    FiveDigits();
  }

  lemma FiveDigits()
    ensures Pow10(5) == CAPACITY
  {
    assert Pow10(2) == 100;
    assert Pow10(4) == 10000;
  }

  /** The five-character pattern selects the server's names up to 99999 and no others. */
  lemma GlobSelects(n: nat)
    ensures GlobMatch(FrameName(n)) <==> n < CAPACITY
    ensures n < CAPACITY ==> DigitPath(FramePath(n))
  {
    PadValue(n, 5);
    FiveDigits();
    var d := Pad(n, 5);
    assert FrameName(n)[..6] == PREFIX;
    if |d| == 5 {
      assert FrameName(n)[11..] == SUFFIX;
      assert FramePath(n)[7..] == FrameName(n) && FramePath(n)[13..18] == d;
    }
  }

  lemma NotANumber()
    ensures PyInt("abcde") == None
  {
  }

  /** A name that the pattern selects although it has no number. */
  lemma BadName()
    ensures GlobMatch("frame_abcde.jpg")
    ensures GetFrameNumber("frames/frame_abcde.jpg") == None
  {
    var field := "abcde";
    assert FRAMES_DIR + (PREFIX + field + SUFFIX) == "frames/frame_abcde.jpg";
    FieldNumber(field);
    NotANumber();
  }

  /** The names of frame 42. */
  lemma NameExample()
    ensures FramePath(42) == "frames/frame_00042.jpg" && ANNOTATED_DIR + FrameName(42) == "annotated/frame_00042.jpg"
  {
    assert Pad(42, 5) == "00042";
  }

  /** The documented example. */
  lemma PlainExample()
    ensures GetFrameNumber("frames/frame_00042.jpg") == Some(42)
  {
    NameExample();
    ParsePrinted(42);
  }

  lemma NegativeNumber()
    ensures PyInt("-0042") == Some(-42)
  {
    var d := Pad(42, 4);
    PadValue(42, 4);
    SignedField('-', d);
    assert d == "0042";
    assert ['-'] + d == "-0042";
  }

  lemma NegativeName()
    ensures '/' !in "-0042" && FRAMES_DIR + (PREFIX + "-0042" + SUFFIX) == "frames/frame_-0042.jpg"
  {
  }

  /** A name that the pattern selects although the server never writes it. */
  lemma NegativeExample()
    ensures GetFrameNumber("frames/frame_-0042.jpg") == Some(-42)
  {
    NegativeNumber();
    NegativeName();
    FieldNumber("-0042");
  }

  // ---------- listings ----------

  predicate AllParse(files: seq<string>) { forall i | 0 <= i < |files| :: GetFrameNumber(files[i]).Some? }

  function Numbers(files: seq<string>): (r: seq<int>)
    requires AllParse(files)
    ensures |r| == |files|
    ensures forall i | 0 <= i < |r| :: r[i] == GetFrameNumber(files[i]).value
  {
    seq(|files|, i requires 0 <= i < |files| => GetFrameNumber(files[i]).value)
  }

  ghost predicate DigitListing(listing: seq<string>) {
    Distinct(listing) && forall p | p in listing :: DigitPath(p)
  }

  /**
   * Sorting a listing of five-digit names by string sorts it by number: the numbers come out strictly ascending,
   * they are those of the listed names, and so the last file carries the highest one.
   */
  lemma SortedNumbers(listing: seq<string>)
    requires DigitListing(listing)
    ensures AllParse(Sort(listing)) && |Sort(listing)| == |listing|
    ensures Ascending(Numbers(Sort(listing)))
    ensures forall n: int :: n in Numbers(Sort(listing)) <==> 0 <= n < CAPACITY && FramePath(n) in listing
  {
    var files := Sort(listing);
    SortDistinct(listing);
    forall i | 0 <= i < |files| ensures GetFrameNumber(files[i]).Some? && DigitPath(files[i]) {
      assert files[i] in listing;
      PrintParsed(files[i]);
    }
    var nums := Numbers(files);
    forall i, j | 0 <= i < j < |nums| ensures nums[i] < nums[j] {
      PathOrder(files[i], files[j]);
    }
    forall n: int ensures n in nums <==> 0 <= n < CAPACITY && FramePath(n) in listing {
      if n in nums {
        var i :| 0 <= i < |nums| && nums[i] == n;
        PrintParsed(files[i]);
      }
      if 0 <= n < CAPACITY && FramePath(n) in listing {
        ParsePrinted(n);
        assert FramePath(n) in files;
        var i :| 0 <= i < |files| && files[i] == FramePath(n);
        assert nums[i] == n;
      }
    }
  }

  lemma PathOrder(p: string, q: string)
    requires DigitPath(p) && DigitPath(q) && Less(p, q)
    ensures GetFrameNumber(p).Some? && GetFrameNumber(q).Some?
    ensures GetFrameNumber(p).value < GetFrameNumber(q).value
  {
    PrintParsed(p);
    PrintParsed(q);
    var a, b := p[13..18], q[13..18];
    assert p == p[..13] + a + p[18..] && q == q[..13] + b + q[18..];
    assert p[..13] == p[..7] + p[7..][..6] && q[..13] == q[..7] + q[7..][..6];
    assert p[18..] == p[7..][11..] && q[18..] == q[7..][11..];
    LessAffixes(p[..13], a, b, p[18..]);
    OrderIsNumeric(a, b);
  }

  /** What glob returns for a folder: the selected names with the directory in front, in any order. */
  ghost predicate Globs(folder: set<string>, listing: seq<string>) {
    && Distinct(listing)
    && (forall p | p in listing :: |p| >= 7 && p[..7] == FRAMES_DIR && p[7..] in folder && GlobMatch(p[7..]))
    && (forall name | name in folder && GlobMatch(name) :: FRAMES_DIR + name in listing)
  }

  /** The folder the server has filled with its first `count` frames. */
  ghost function ServerFolder(count: nat): set<string> {
    set n | 0 <= n < count :: FrameName(n)
  }

  /** How many of `count` frames the pattern finds. */
  function Visible(count: nat): nat { if count < CAPACITY then count else CAPACITY }

  /** Listing and sorting that folder yields 0, 1, 2, ... without a gap, cut off where the pattern runs out. */
  lemma ServerListing(count: nat, listing: seq<string>)
    requires Globs(ServerFolder(count), listing)
    ensures DigitListing(listing) && AllParse(Sort(listing))
    ensures Numbers(Sort(listing)) == Range(0, Visible(count))
  {
    var top := Visible(count);
    forall p | p in listing ensures DigitPath(p) && exists n :: 0 <= n < top && p == FramePath(n) {
      var n :| 0 <= n < count && p[7..] == FrameName(n);
      assert p == p[..7] + p[7..];
      GlobSelects(n);
      assert p == FramePath(n);
    }
    SortedNumbers(listing);
    var nums := Numbers(Sort(listing));
    forall n: int ensures n in nums <==> n in Range(0, top) {
      if n in nums {
        assert FramePath(n) in listing;
        var k :| 0 <= k < top && FramePath(n) == FramePath(k);
        ParsePrinted(n);
        ParsePrinted(k);
        assert Range(0, top)[n] == n;
      }
      if n in Range(0, top) {
        GlobSelects(n);
        assert FrameName(n) in ServerFolder(count);
        assert FramePath(n) in listing;
      }
    }
    AscendingUnique(nums, Range(0, top));
  }
}
