/** Base58 text for byte strings: leading zero bytes become leading '1's, the
    rest is one large number written in base 58. Both directions run carry loops
    over a buffer whose size is estimated beforehand. */
module Base58 {
  import opened Options
  import opened Digits
  import Nonlinear

  // The alphabet: digits and letters in order, without 0, I, O and l.
  function CharOf(d: nat): char
    requires d < 58
  {
    if d < 9 then '1' + d as char
    else if d < 17 then 'A' + (d - 9) as char
    else if d < 22 then 'J' + (d - 17) as char
    else if d < 33 then 'P' + (d - 22) as char
    else if d < 44 then 'a' + (d - 33) as char
    else 'm' + (d - 44) as char
  }

  predicate IsSpace(c: char) {
    c == ' ' || c == '\t' || c == '\n' || c == 11 as char || c == 12 as char || c == '\r'
  }

  // The value of a character, 58 if it has none.
  function IndexOf(c: char, k: nat): (r: nat)
    requires k <= 58
    ensures k <= r <= 58 && (r < 58 ==> CharOf(r) == c)
    ensures r == 58 ==> forall i :: k <= i < 58 ==> CharOf(i) != c
    decreases 58 - k
  { if k == 58 then 58 else if CharOf(k) == c then k else IndexOf(c, k + 1) }

  function DigitOf(c: char): (r: nat)
    ensures r <= 58 && (r < 58 ==> CharOf(r) == c)
  { IndexOf(c, 0) }

  lemma DigitOfChar(d: nat)
    requires d < 58
    ensures DigitOf(CharOf(d)) == d && !IsSpace(CharOf(d)) && (CharOf(d) == '1' <==> d == 0)
  {
    var r := DigitOf(CharOf(d));
    assert CharOf(d) as int == CharOf(r) as int;
  }

  /* What the two directions compute */

  predicate IsText(s: string) { forall i :: 0 <= i < |s| ==> DigitOf(s[i]) < 58 }

  function DigitsOfText(s: string): (r: seq<nat>)
    ensures |r| == |s| && (IsText(s) ==> Proper(r, 58))
  { seq(|s|, i requires 0 <= i < |s| => DigitOf(s[i])) }

  function TextOf(ds: seq<nat>): (r: string)
    requires Proper(ds, 58)
    ensures |r| == |ds|
  { seq(|ds|, i requires 0 <= i < |ds| => CharOf(ds[i])) }

  // How many of the first elements are zero.
  function Zeros(s: seq<nat>): (k: nat)
    ensures k <= |s| && (forall i :: 0 <= i < k ==> s[i] == 0) && (k < |s| ==> s[k] != 0)
  { if s == [] || s[0] != 0 then 0 else 1 + Zeros(s[1..]) }

  function Repeated(k: nat): seq<nat> { seq(k, _ => 0) }

  // Keeps the leading zeros and writes the rest in another base.
  function Rebased(s: seq<nat>, base: nat, to: nat): (r: seq<nat>)
    requires base >= 2 && to >= 2
    ensures Proper(r, to)
  { Repeated(Zeros(s)) + DigitsOf(Val(s[Zeros(s)..], base), to) }

  // Zeros in front of digits without a leading zero are counted and split off.
  lemma RebasedFront(k: nat, ds: seq<nat>, base: nat, to: nat)
    requires base >= 2 && to >= 2 && (ds != [] ==> ds[0] != 0)
    ensures Rebased(Repeated(k) + ds, base, to) == Repeated(k) + DigitsOf(Val(ds, base), to)
  {
    ZerosFront(k, ds);
    assert (Repeated(k) + ds)[k..] == ds;
  }

  // Doing so and going back gives the same again.
  lemma RebasedBack(s: seq<nat>, base: nat, to: nat)
    requires base >= 2 && to >= 2 && Proper(s, base)
    ensures Rebased(Rebased(s, base, to), to, base) == s
  {
    var k := Zeros(s);
    var n := Val(s[k..], base);
    RebasedFront(k, DigitsOf(n, to), to, base);
    ValDigits(n, to);
    DigitsVal(s[k..], base);
    assert s == Repeated(k) + s[k..];
  }

  lemma {:induction false} ZerosFront(k: nat, ds: seq<nat>)
    requires ds != [] ==> ds[0] != 0
    ensures Zeros(Repeated(k) + ds) == k
  {
    var s: seq<nat> := Repeated(k) + ds;
    if k > 0 {
      ZerosFront(k - 1, ds);
      assert s[1..] == Repeated(k - 1) + ds;
    } else {
      assert s == ds;
    }
  }

  function Encoded(bytes: seq<nat>): string { TextOf(Rebased(bytes, 256, 58)) }

  // Spaces around the text are ignored.
  function SkipSpaces(s: string): (r: string) {
    if s != [] && IsSpace(s[0]) then SkipSpaces(s[1..]) else s
  }

  function DropSpaces(s: string): (r: string) {
    if s != [] && IsSpace(s[|s| - 1]) then DropSpaces(s[..|s| - 1]) else s
  }

  function Trim(s: string): string { DropSpaces(SkipSpaces(s)) }

  function Decoded(s: string): Option<seq<nat>> {
    var t := Trim(s);
    if IsText(t) then Some(Rebased(DigitsOfText(t), 58, 256)) else None
  }

  lemma TextDigits(ds: seq<nat>)
    requires Proper(ds, 58)
    ensures IsText(TextOf(ds)) && DigitsOfText(TextOf(ds)) == ds
  {
    forall i | 0 <= i < |ds|
      ensures DigitOf(TextOf(ds)[i]) == ds[i]
    {
      DigitOfChar(ds[i]);
    }
  }

  lemma DigitsText(s: string)
    requires IsText(s)
    ensures TextOf(DigitsOfText(s)) == s
  {}

  lemma NoSpaces(s: string)
    requires IsText(s)
    ensures Trim(s) == s
  {
    if s != [] {
      DigitOfChar(DigitOf(s[0]));
      DigitOfChar(DigitOf(s[|s| - 1]));
    }
  }

  // Decoding what was encoded gives the bytes back.
  lemma DecodeEncode(bytes: seq<nat>)
    requires Proper(bytes, 256)
    ensures Decoded(Encoded(bytes)) == Some(bytes)
  {
    var ds := Rebased(bytes, 256, 58);
    TextDigits(ds);
    NoSpaces(TextOf(ds));
    RebasedBack(bytes, 256, 58);
  }

  // Encoding what was decoded gives the text back, without outer spaces.
  lemma EncodeDecode(s: string)
    requires Decoded(s).Some?
    ensures Proper(Decoded(s).value, 256) && Encoded(Decoded(s).value) == Trim(s)
  {
    var t := Trim(s);
    RebasedBack(DigitsOfText(t), 58, 256);
    DigitsText(t);
  }

  /* The carry loops */

  // b := b * mult + digit, over the last digits of the buffer. length tells how
  // many of them are in use.
  method Scale(b: array<nat>, base: nat, mult: nat, digit: nat, length: nat) returns (newLength: nat)
    requires base >= 2 && Proper(b[..], base) && length <= b.Length
    requires forall j :: 0 <= j < b.Length - length ==> b[j] == 0
    requires mult * Val(b[..], base) + digit < Pow(base, b.Length)
    modifies b
    ensures Proper(b[..], base) && Val(b[..], base) == mult * old(Val(b[..], base)) + digit
    ensures newLength <= b.Length && forall j :: 0 <= j < b.Length - newLength ==> b[j] == 0
  {
    ghost var p := b[..];
    var carry: nat, i := digit, 0;
    ScaleStart(p, base, mult, digit);
    while (carry != 0 || i < length) && i < b.Length
      invariant Scaling(p, b[..], base, mult, digit, carry, i)
      decreases b.Length - i
    {
      var at := b.Length - 1 - i;
      ghost var was, carried := b[..], carry;
      var total := Total(carry, mult, b[at]);
      Divided(total, base);
      b[at] := total % base;
      carry := total / base;
      ScaleNext(p, was, base, mult, digit, carried, i, b[..], carry);
      i := i + 1;
    }
    ScaleEnd(p, b[..], base, mult, digit, carry, i, length);
    assert carry == 0;
    newLength := i;
  }

  function Total(carry: nat, mult: nat, x: nat): nat {
    Nonlinear.MulMono(0, mult, x);
    carry + mult * x
  }

  // The last i digits of p have been scaled into b.
  ghost predicate Scaling(p: seq<nat>, b: seq<nat>, base: nat, mult: nat, digit: nat, carry: nat, i: nat) {
    && |p| == |b| && i <= |p| && b[..|p| - i] == p[..|p| - i] && Proper(b, base)
    && Val(b[|p| - i..], base) + carry * Pow(base, i) == mult * Val(p[|p| - i..], base) + digit
  }

  lemma ScaleStart(p: seq<nat>, base: nat, mult: nat, digit: nat)
    requires Proper(p, base)
    ensures Scaling(p, p, base, mult, digit, digit, 0)
  {
    assert p[|p|..] == [];
  }

  lemma ScaleNext(p: seq<nat>, b: seq<nat>, base: nat, mult: nat, digit: nat, carry: nat, i: nat, b': seq<nat>,
                  carry': nat)
    requires base >= 2 && Scaling(p, b, base, mult, digit, carry, i) && i < |p|
    requires var at := |p| - 1 - i; var total := Total(carry, mult, b[at]);
      0 <= total % base < base && b' == b[at := total % base] && carry' == total / base
    ensures Scaling(p, b', base, mult, digit, carry', i + 1)
  {
    var at := |p| - 1 - i;
    assert b[at] == b[..at + 1][at] == p[at];
    assert b'[at..][1..] == b[at + 1..] && p[at..][1..] == p[at + 1..];
    assert b'[..at] == b[..at] == b[..at + 1][..at] == p[..at];
    ScaleStep(b'[at..], p[at..], base, mult, digit, carry + mult * b[at]);
  }

  lemma Divided(n: nat, base: nat)
    requires base >= 2
    ensures 0 <= n / base && 0 <= n % base < base && n == base * (n / base) + n % base
  {
    if n > 0 {
      Shrinks(n, base);
    } else {
      Nonlinear.Small(0, base);
    }
  }

  // One digit further: total is the carry plus the scaled digit.
  lemma ScaleStep(r: seq<nat>, p: seq<nat>, base: nat, mult: nat, digit: nat, total: nat)
    requires base >= 2 && |r| == |p| > 0 && r[0] == total % base && total >= mult * p[0]
    requires Val(r[1..], base) + (total - mult * p[0]) * Pow(base, |r| - 1) == mult * Val(p[1..], base) + digit
    ensures Val(r, base) + (total / base) * Pow(base, |r|) == mult * Val(p, base) + digit
  {
    ValFront(r, base);
    ValFront(p, base);
    Divided(total, base);
    ScaleAlgebra(Val(r[1..], base), total, total / base, total % base, base, Pow(base, |r| - 1), mult, p[0],
      Val(p[1..], base), digit);
  }

  lemma ScaleAlgebra(r: nat, total: nat, high: nat, low: nat, base: nat, m: nat, mult: nat, x: nat, p: nat, digit: nat)
    requires total == base * high + low && r + (total - mult * x) * m == mult * p + digit
    ensures (low * m + r) + high * (base * m) == mult * (x * m + p) + digit
  {
    Nonlinear.Split(m, total, -(mult * x));
    Nonlinear.Split(m, base * high, low);
    Nonlinear.Reorder(m, base, high);
    Nonlinear.Commute(base * m, high);
    Nonlinear.Split(mult, x * m, p);
    Nonlinear.Reorder(m, mult, x);
    Nonlinear.Commute(m, x);
  }

  // The loop ends with nothing carried: either the rest of the buffer is unused,
  // or the buffer is full and the number fits it.
  lemma ScaleEnd(p: seq<nat>, b: seq<nat>, base: nat, mult: nat, digit: nat, carry: nat, i: nat, length: nat)
    requires base >= 2 && Scaling(p, b, base, mult, digit, carry, i) && length <= |p|
    requires forall j :: 0 <= j < |p| - length ==> p[j] == 0
    requires mult * Val(p, base) + digit < Pow(base, |p|)
    requires i == |p| || (carry == 0 && i >= length)
    ensures carry == 0 && Val(b, base) == mult * Val(p, base) + digit
    ensures forall j :: 0 <= j < |p| - i ==> b[j] == 0
  {
    if i == |p| {
      ScaledAll(p, b, base, mult, digit, carry);
    } else {
      ScaledPart(p, b, base, mult, digit, i);
    }
  }

  lemma ScaledPart(p: seq<nat>, b: seq<nat>, base: nat, mult: nat, digit: nat, i: nat)
    requires Scaling(p, b, base, mult, digit, 0, i) && forall j :: 0 <= j < |p| - i ==> p[j] == 0
    ensures Val(b, base) == mult * Val(p, base) + digit && forall j :: 0 <= j < |p| - i ==> b[j] == 0
  {
    UnusedFront(p, b, |p| - i, base);
  }

  lemma ScaledAll(p: seq<nat>, b: seq<nat>, base: nat, mult: nat, digit: nat, carry: nat)
    requires Scaling(p, b, base, mult, digit, carry, |p|)
    requires mult * Val(p, base) + digit < Pow(base, |p|)
    ensures carry == 0 && Val(b, base) == mult * Val(p, base) + digit
  {
    ScalingAll(p, b, base, mult, digit, carry);
    NoCarry(Val(b, base), carry, Pow(base, |p|), mult * Val(p, base) + digit);
  }

  lemma ScalingAll(p: seq<nat>, b: seq<nat>, base: nat, mult: nat, digit: nat, carry: nat)
    requires Scaling(p, b, base, mult, digit, carry, |p|)
    ensures Val(b, base) + carry * Pow(base, |p|) == mult * Val(p, base) + digit
  {
    assert b[0..] == b && p[0..] == p;
  }

  lemma NoCarry(v: nat, carry: nat, m: nat, n: int)
    requires v + carry * m == n < m
    ensures carry == 0 && v == n
  {
    if carry > 0 {
      Nonlinear.MulMono(1, carry, m);
    }
  }

  lemma UnusedFront(p: seq<nat>, b: seq<nat>, k: nat, base: nat)
    requires |p| == |b| && k <= |p| && b[..k] == p[..k] && forall j :: 0 <= j < k ==> p[j] == 0
    ensures Val(b[k..], base) == Val(b, base) && Val(p[k..], base) == Val(p, base)
    ensures forall j :: 0 <= j < k ==> b[j] == 0
  {
    forall j | 0 <= j < k
      ensures b[j] == 0
    {
      assert b[j] == b[..k][j] == p[..k][j];
    }
    ValStrip(b, k, base);
    ValStrip(p, k, base);
  }

  // The number in the buffer without its leading zeros.
  method Stripped(b: array<nat>, length: nat, base: nat) returns (r: seq<nat>)
    requires base >= 2 && Proper(b[..], base) && length <= b.Length
    requires forall j :: 0 <= j < b.Length - length ==> b[j] == 0
    ensures r == DigitsOf(Val(b[..], base), base)
  {
    var k := b.Length - length;
    while k < b.Length && b[k] == 0
      invariant k <= b.Length && forall j :: 0 <= j < k ==> b[j] == 0
    {
      k := k + 1;
    }
    r := b[k..];
    assert b[..][k..] == r;
    ValStrip(b[..], k, base);
    DigitsVal(r, base);
  }

  // Another digit still fits the buffer.
  lemma RoomForNext(ds: seq<nat>, i: nat, from: nat, to: nat, size: nat)
    requires i < |ds| && Proper(ds, from) && from >= 2 && Pow(from, |ds|) <= Pow(to, size)
    ensures Val(ds[..i + 1], from) == from * Val(ds[..i], from) + ds[i] < Pow(to, size)
  {
    assert ds[..i + 1][..i] == ds[..i];
    Nonlinear.Commute(from, Val(ds[..i], from));
    ValBound(ds[..i + 1], from);
    PowGrows(from, i + 1, |ds|);
  }

  // Writes digits of one base in another, in a buffer that is large enough.
  method Convert(ds: seq<nat>, from: nat, to: nat, size: nat) returns (r: seq<nat>)
    requires Proper(ds, from) && from >= 2 && to >= 2 && Pow(from, |ds|) <= Pow(to, size)
    ensures r == DigitsOf(Val(ds, from), to)
  {
    var b := new nat[size](_ => 0);
    var length: nat := 0;
    ValZeros(b[..], to);
    for i := 0 to |ds|
      invariant Proper(b[..], to) && Val(b[..], to) == Val(ds[..i], from)
      invariant length <= b.Length && forall j :: 0 <= j < b.Length - length ==> b[j] == 0
    {
      RoomForNext(ds, i, from, to, size);
      length := Scale(b, to, from, ds[i], length);
    }
    assert ds[..|ds|] == ds;
    r := Stripped(b, length, to);
  }

  method EncodeBase58(bytes: seq<nat>) returns (str: string)
    requires Proper(bytes, 256)
    ensures str == Encoded(bytes)
  {
    var zeroes := 0;
    while zeroes < |bytes| && bytes[zeroes] == 0
      invariant zeroes <= |bytes| && Zeros(bytes) == zeroes + Zeros(bytes[zeroes..])
    {
      assert bytes[zeroes..][1..] == bytes[zeroes + 1..];
      zeroes := zeroes + 1;
    }
    var rest := bytes[zeroes..];
    EncodeRoom(|rest|);
    var ds := Convert(rest, 256, 58, |rest| * 138 / 100 + 1);
    str := TextOf(Repeated(zeroes) + ds);
  }

  /* Decoding */

  lemma {:induction false} SkipSpacesIs(s: string, q: nat)
    requires q <= |s| && (forall i :: 0 <= i < q ==> IsSpace(s[i])) && (q < |s| ==> !IsSpace(s[q]))
    ensures SkipSpaces(s) == s[q..]
  {
    if q > 0 {
      SkipSpacesIs(s[1..], q - 1);
    }
  }

  lemma {:induction false} DropSpacesIs(s: string, f: nat)
    requires f <= |s| && (forall i :: f <= i < |s| ==> IsSpace(s[i])) && (f > 0 ==> !IsSpace(s[f - 1]))
    ensures DropSpaces(s) == s[..f]
  {
    if f < |s| {
      DropSpacesIs(s[..|s| - 1], f);
    }
  }

  // What is not a space keeps its place, and so does all before it.
  lemma {:induction false} DropKeeps(s: string, i: nat)
    requires i < |s| && !IsSpace(s[i])
    ensures i < |DropSpaces(s)| && DropSpaces(s)[..i + 1] == s[..i + 1]
  {
    if IsSpace(s[|s| - 1]) {
      DropKeeps(s[..|s| - 1], i);
      assert s[..|s| - 1][..i + 1] == s[..i + 1];
    }
  }

  lemma SpaceHasNoDigit(c: char)
    requires IsSpace(c)
    ensures DigitOf(c) == 58
  {
    if DigitOf(c) < 58 {
      DigitOfChar(DigitOf(c));
    }
  }

  // A character without a digit, at or before the last one that is no space.
  lemma Refused(s: string, q: nat, bad: nat, last: nat)
    requires q <= bad <= last < |s| && !IsSpace(s[last]) && DigitOf(s[bad]) == 58
    requires AllSpaces(s, 0, q) && !IsSpace(s[q])
    ensures Decoded(s) == None
  {
    SkipSpacesIs(s, q);
    DropKeeps(s[q..], last - q);
    var t := Trim(s);
    assert t[..last - q + 1][bad - q] == s[q..][..last - q + 1][bad - q];
    assert DigitOf(t[bad - q]) == 58;
  }

  predicate AllSpaces(s: string, from: nat, to: nat)
    requires to <= |s|
  { forall i :: from <= i < to ==> IsSpace(s[i]) }

  predicate AllOnes(s: string, from: nat, to: nat)
    requires to <= |s|
  { forall i :: from <= i < to ==> s[i] == '1' }

  // Characters that stand for digits, and so are no spaces.
  predicate AllDigits(s: string, from: nat, to: nat)
    requires to <= |s|
  { forall i :: from <= i < to ==> DigitOf(s[i]) < 58 }

  // The buffer holds a number, in its last digits.
  ghost predicate Holds(b: seq<nat>, base: nat, length: nat, v: nat) {
    && Proper(b, base) && Val(b, base) == v && length <= |b|
    && forall j :: 0 <= j < |b| - length ==> b[j] == 0
  }

  // The characters from start to p are digits, and the buffer holds them.
  ghost predicate Taken(s: string, start: nat, p: nat, b: seq<nat>, length: nat) {
    && start <= p <= |s| && AllDigits(s, start, p) && Pow(58, |s| - start) <= Pow(256, |b|)
    && Holds(b, 256, length, Val(DigitsOfText(s[start..p]), 58))
  }

  // Takes one more character into the buffer.
  method TakeChar(b: array<nat>, length: nat, s: string, start: nat, p: nat) returns (newLength: nat)
    requires Taken(s, start, p, b[..], length) && p < |s| && DigitOf(s[p]) < 58
    modifies b
    ensures Taken(s, start, p + 1, b[..], newLength)
  {
    CharFits(s, start, p, b.Length);
    newLength := Scale(b, 256, 58, DigitOf(s[p]), length);
  }

  lemma NoneTaken(s: string, start: nat, b: seq<nat>)
    requires start <= |s| && |b| == (|s| - start) * 733 / 1000 + 1 && forall j :: 0 <= j < |b| ==> b[j] == 0
    ensures Taken(s, start, start, b, 0)
  {
    DecodeRoom(|s| - start);
    ValZeros(b, 256);
    assert s[start..start] == [];
  }

  // Decodes characters up to a space, the end, or one that has no digit.
  method DecodeRun(s: string, start: nat) returns (end: nat, digits: seq<nat>)
    requires start <= |s|
    ensures start <= end <= |s| && AllDigits(s, start, end)
    ensures end < |s| ==> IsSpace(s[end]) || DigitOf(s[end]) == 58
    ensures digits == DigitsOf(Val(DigitsOfText(s[start..end]), 58), 256)
  {
    var b := new nat[(|s| - start) * 733 / 1000 + 1](_ => 0);
    NoneTaken(s, start, b[..]);
    var length;
    end, length := TakeRun(b, s, start);
    digits := Stripped(b, length, 256);
  }

  method TakeRun(b: array<nat>, s: string, start: nat) returns (end: nat, length: nat)
    requires Taken(s, start, start, b[..], 0)
    modifies b
    ensures Taken(s, start, end, b[..], length)
    ensures end < |s| ==> IsSpace(s[end]) || DigitOf(s[end]) == 58
  {
    end, length := start, 0;
    while end < |s| && !IsSpace(s[end])
      invariant start <= end <= |s| && Taken(s, start, end, b[..], length)
    {
      if DigitOf(s[end]) == 58 {
        break;
      }
      length := TakeChar(b, length, s, start, end);
      end := end + 1;
    }
  }

  lemma CharFits(s: string, start: nat, p: nat, size: nat)
    requires start <= p < |s| && AllDigits(s, start, p + 1)
    requires Pow(58, |s| - start) <= Pow(256, size)
    ensures Val(DigitsOfText(s[start..p + 1]), 58) ==
      58 * Val(DigitsOfText(s[start..p]), 58) + DigitOf(s[p]) < Pow(256, size)
  {
    TextFront(s, start, p);
    NextFits(DigitsOfText(s[start..p]), DigitOf(s[p]), 58, |s| - start, Pow(256, size));
  }

  lemma NextFits(front: seq<nat>, d: nat, base: nat, n: nat, bound: nat)
    requires base >= 2 && Proper(front + [d], base) && |front| < n && Pow(base, n) <= bound
    ensures Val(front + [d], base) == base * Val(front, base) + d < bound
  {
    ValSnoc(front, d, base);
    ValBound(front + [d], base);
    PowGrows(base, |front| + 1, n);
    Nonlinear.Commute(base, Val(front, base));
  }

  lemma TextFront(s: string, start: nat, p: nat)
    requires start <= p < |s| && AllDigits(s, start, p + 1)
    ensures DigitsOfText(s[start..p + 1]) == DigitsOfText(s[start..p]) + [DigitOf(s[p])]
    ensures |DigitsOfText(s[start..p])| == p - start && Proper(DigitsOfText(s[start..p + 1]), 58)
  {}

  method PassSpaces(s: string, start: nat) returns (p: nat)
    requires start <= |s|
    ensures start <= p <= |s| && AllSpaces(s, start, p) && (p < |s| ==> !IsSpace(s[p]))
  {
    p := start;
    while p < |s| && IsSpace(s[p])
      invariant start <= p <= |s| && AllSpaces(s, start, p)
    {
      p := p + 1;
    }
  }

  method PassOnes(s: string, start: nat) returns (p: nat)
    requires start <= |s|
    ensures start <= p <= |s| && AllOnes(s, start, p) && (p < |s| ==> s[p] != '1')
  {
    p := start;
    while p < |s| && s[p] == '1'
      invariant start <= p <= |s| && AllOnes(s, start, p)
    {
      p := p + 1;
    }
  }

  // What the C functions see of a string.
  function UpToNul(s: string): (r: string)
    ensures r <= s && '\0' !in r && (|r| < |s| ==> s[|r|] == '\0')
  { if s == [] || s[0] == '\0' then [] else [s[0]] + UpToNul(s[1..]) }

  lemma {:induction false} NulAt(s: string, n: nat)
    requires n <= |s| && (n < |s| ==> s[n] == '\0') && forall i :: 0 <= i < n ==> s[i] != '\0'
    ensures UpToNul(s) == s[..n]
  {
    if n > 0 {
      NulAt(s[1..], n - 1);
    }
  }

  // A NUL ends the text, whatever follows.
  method DecodeBase58(s: string) returns (r: Option<seq<nat>>)
    ensures r == Decoded(UpToNul(s))
  {
    var length := 0;
    while length < |s| && s[length] != '\0'
      invariant length <= |s| && forall i :: 0 <= i < length ==> s[i] != '\0'
    {
      length := length + 1;
    }
    NulAt(s, length);
    r := DecodeText(s[..length]);
  }

  // Decodes a text without NUL.
  method DecodeText(s: string) returns (r: Option<seq<nat>>)
    ensures r == Decoded(s)
  {
    var q := PassSpaces(s, 0);
    var p := PassOnes(s, q);
    var end, digits := DecodeRun(s, p);
    if end < |s| && !IsSpace(s[end]) {
      Refused(s, q, end, end);
      return None;
    }
    var last := PassSpaces(s, end);
    if last != |s| {
      SpaceHasNoDigit(s[end]);
      Refused(s, q, end, last);
      return None;
    }
    Accepted(s, q, p, end);
    r := Some(Repeated(p - q) + digits);
  }

  // Spaces, ones, other digits up to end, and again spaces.
  predicate Parsed(s: string, q: nat, p: nat, end: nat) {
    && q <= p <= end <= |s| && AllSpaces(s, 0, q) && (q < |s| ==> !IsSpace(s[q]))
    && AllOnes(s, q, p) && (p < |s| ==> s[p] != '1') && AllDigits(s, p, end) && AllSpaces(s, end, |s|)
  }

  lemma Accepted(s: string, q: nat, p: nat, end: nat)
    requires Parsed(s, q, p, end)
    ensures Decoded(s) == Some(Repeated(p - q) + DigitsOf(Val(DigitsOfText(s[p..end]), 58), 256))
  {
    TrimIs(s, q, p, end);
    Slice(s, q, p, end);
    AcceptedText(s, s[q..end], p - q, s[p..end]);
  }

  lemma AcceptedText(s: string, t: string, k: nat, rest: string)
    requires Trim(s) == t && LedByOnes(t, k) && t[k..] == rest
    ensures Decoded(s) == Some(Repeated(k) + DigitsOf(Val(DigitsOfText(rest), 58), 256))
  {
    LeadingOnes(t, k);
    DecodedIs(s, t);
  }

  lemma DecodedIs(s: string, t: string)
    requires Trim(s) == t && IsText(t)
    ensures Decoded(s) == Some(Rebased(DigitsOfText(t), 58, 256))
  {}

  lemma Slice(s: string, q: nat, p: nat, end: nat)
    requires Parsed(s, q, p, end)
    ensures LedByOnes(s[q..end], p - q) && s[q..end][p - q..] == s[p..end]
  {
    var t := s[q..end];
    assert forall i :: 0 <= i < |t| ==> t[i] == s[q + i];
  }

  lemma TrimIs(s: string, q: nat, p: nat, end: nat)
    requires Parsed(s, q, p, end)
    ensures Trim(s) == s[q..end]
  {
    SkipSpacesIs(s, q);
    LastIsNoSpace(s, q, p, end);
    DropSpacesIs(s[q..], end - q);
  }

  predicate LedByOnes(t: string, k: nat) {
    k <= |t| && AllOnes(t, 0, k) && AllDigits(t, k, |t|) && (k < |t| ==> t[k] != '1')
  }

  lemma LeadingOnes(t: string, k: nat)
    requires LedByOnes(t, k)
    ensures IsText(t)
    ensures Rebased(DigitsOfText(t), 58, 256) == Repeated(k) + DigitsOf(Val(DigitsOfText(t[k..]), 58), 256)
  {
    DigitOfChar(0);
    var ds := DigitsOfText(t);
    if k < |t| {
      DigitOfChar(ds[k]);
    }
    ZerosAre(ds, k);
    assert ds[k..] == DigitsOfText(t[k..]);
  }

  lemma {:induction false} ZerosAre(s: seq<nat>, k: nat)
    requires k <= |s| && (forall i :: 0 <= i < k ==> s[i] == 0) && (k < |s| ==> s[k] != 0)
    ensures Zeros(s) == k
  {
    if k > 0 {
      ZerosAre(s[1..], k - 1);
    }
  }

  lemma LastIsNoSpace(s: string, q: nat, p: nat, end: nat)
    requires q <= p <= end <= |s| && AllOnes(s, q, p) && AllDigits(s, p, end)
    ensures q < end ==> !IsSpace(s[end - 1])
  {
    if p < end && IsSpace(s[end - 1]) {
      SpaceHasNoDigit(s[end - 1]);
    }
  }

  /* With a checksum */

  // The hash of the bytes, of which the first four are appended.
  predicate IsHash(hash: seq<nat> -> seq<nat>, bytes: seq<nat>) {
    |hash(bytes)| >= 4 && Proper(hash(bytes), 256)
  }

  function EncodeCheck(hash: seq<nat> -> seq<nat>, bytes: seq<nat>): string
    requires IsHash(hash, bytes)
  { Encoded(bytes + hash(bytes)[..4]) }

  function DecodeCheck(hash: seq<nat> -> seq<nat>, s: string): Option<seq<nat>> {
    var d := Decoded(UpToNul(s));
    if d.None? || |d.value| < 4 then None
    else
      var bytes, sum := d.value[..|d.value| - 4], d.value[|d.value| - 4..];
      if sum <= hash(bytes) then Some(bytes) else None
  }

  lemma CheckDecodes(hash: seq<nat> -> seq<nat>, bytes: seq<nat>, s: string)
    requires Proper(bytes, 256) && IsHash(hash, bytes) && Trim(UpToNul(s)) == EncodeCheck(hash, bytes)
    ensures DecodeCheck(hash, s) == Some(bytes)
  {
    var all := bytes + hash(bytes)[..4];
    DecodeEncode(all);
    TextDigits(Rebased(all, 256, 58));
    NoSpaces(Encoded(all));
    assert all[..|all| - 4] == bytes && all[|all| - 4..] == hash(bytes)[..4];
  }

  // Exactly the texts of bytes with their checksum are accepted, up to a NUL.
  lemma CheckRoundTrip(hash: seq<nat> -> seq<nat>, bytes: seq<nat>, s: string)
    requires Proper(bytes, 256) && IsHash(hash, bytes)
    ensures DecodeCheck(hash, s) == Some(bytes) <==> Trim(UpToNul(s)) == EncodeCheck(hash, bytes)
  {
    if Trim(UpToNul(s)) == EncodeCheck(hash, bytes) {
      CheckDecodes(hash, bytes, s);
    }
    if DecodeCheck(hash, s) == Some(bytes) {
      CheckEncodes(hash, bytes, s);
    }
  }

  lemma CheckEncodes(hash: seq<nat> -> seq<nat>, bytes: seq<nat>, s: string)
    requires IsHash(hash, bytes) && DecodeCheck(hash, s) == Some(bytes)
    ensures Trim(UpToNul(s)) == EncodeCheck(hash, bytes)
  {
    EncodeDecode(UpToNul(s));
    Tail(Decoded(UpToNul(s)).value, hash(bytes));
  }

  lemma Tail(d: seq<nat>, h: seq<nat>)
    requires |d| >= 4 && |h| >= 4 && d[|d| - 4..] <= h
    ensures d == d[..|d| - 4] + h[..4]
  {
    assert d[|d| - 4..] == h[..4];
  }
}
