/** Number formatting of lib/print.c: digits are produced backwards in the caller's buffer,
    padded, and reversed in place. What ends up there is Field, and Field parses back. */
module Print {
  import opened Numbers

  /* ---------- the finished field ---------- */

  function DigitChar(d: nat, upcase: bool): char
    requires d < 16
  {
    if d <= 9 then '0' + d as char else if upcase then 'A' + (d - 10) as char else 'a' + (d - 10) as char
  }

  /** Digits of u, most significant first; "0" for zero. */
  function Digits(u: nat, base: nat, upcase: bool): (s: seq<char>)
    requires 2 <= base <= 16
    ensures |s| > 0
    decreases u
  {
    if u < base then [DigitChar(u, upcase)]
    else QuotientSmaller(u, base); Digits(u / base, base, upcase) + [DigitChar(u % base, upcase)]
  }

  lemma QuotientSmaller(u: nat, base: nat)
    requires 2 <= base <= u
    ensures u / base < u
  {
    DivMod(u, base);
    Monotone(u / base, 2, base);
  }

  function Repeat(c: char, n: int): (s: seq<char>) { seq(if n > 0 then n else 0, i => c) }

  function Sign(neg: bool): seq<char> { if neg then "-" else "" }

  /** Left adjusted: number, then blanks. Right adjusted: padding, then number, except that
      zeros go between the sign and the digits. */
  function Framed(digits: seq<char>, neg: bool, length: int, ladjust: bool, padc: char): seq<char> {
    var pad := length - |digits| - |Sign(neg)|;
    if ladjust then Sign(neg) + digits + Repeat(' ', pad)
    else if padc == '0' then Sign(neg) + Repeat('0', pad) + digits
    else Repeat(padc, pad) + Sign(neg) + digits
  }

  function Field(u: nat, base: nat, neg: bool, length: int, ladjust: bool, padc: char, upcase: bool): seq<char>
    requires 2 <= base <= 16
  {
    Framed(Digits(u, base, upcase), neg, length, ladjust, padc)
  }

  /* ---------- reading a field back ---------- */

  function DigitValue(c: char): nat {
    if '0' <= c <= '9' then (c - '0') as nat
    else if 'A' <= c <= 'F' then (c - 'A') as nat + 10
    else if 'a' <= c <= 'f' then (c - 'a') as nat + 10
    else 0
  }

  function Value(s: seq<char>, base: nat): nat
    decreases |s|
  {
    if s == [] then 0 else Value(s[..|s| - 1], base) * base + DigitValue(s[|s| - 1])
  }

  function DropBlanks(s: seq<char>): seq<char>
    decreases |s|
  {
    if s != [] && s[0] == ' ' then DropBlanks(s[1..]) else s
  }

  function TakeWord(s: seq<char>): seq<char>
    decreases |s|
  {
    if s == [] || s[0] == ' ' then [] else [s[0]] + TakeWord(s[1..])
  }

  /** Blanks, an optional minus sign, digits, and whatever follows the next blank. */
  function Parse(s: seq<char>, base: nat): int {
    var w := TakeWord(DropBlanks(s));
    if w != [] && w[0] == '-' then -(Value(w[1..], base) as int) else Value(w, base)
  }

  /** A word: no blank in it. */
  ghost predicate Word(s: seq<char>) { forall i :: 0 <= i < |s| ==> s[i] != ' ' }

  lemma DigitCharValue(d: nat, upcase: bool)
    requires d < 16
    ensures DigitValue(DigitChar(d, upcase)) == d && DigitChar(d, upcase) != ' ' && DigitChar(d, upcase) != '-'
  {}

  lemma DivMod(u: nat, base: nat)
    requires base > 0
    ensures u / base * base + u % base == u && u % base < base
  {}

  lemma ValueSnoc(s: seq<char>, c: char, base: nat)
    ensures Value(s + [c], base) == Value(s, base) * base + DigitValue(c)
  {
    assert (s + [c])[..|s|] == s;
  }

  lemma DigitsStep(u: nat, base: nat, upcase: bool)
    requires 2 <= base <= 16
    ensures u % base < base && (u >= base <==> u / base > 0)
    ensures u >= base ==> u / base < u
    ensures u / base == 0 ==> Digits(u, base, upcase) == [DigitChar(u % base, upcase)]
    ensures u / base > 0 ==> Digits(u, base, upcase) == Digits(u / base, base, upcase) + [DigitChar(u % base, upcase)]
  {
    DivMod(u, base);
    if u >= base { QuotientSmaller(u, base); } else { SmallMod(u, base); }
  }

  lemma {:induction false} DigitsRoundTrip(u: nat, base: nat, upcase: bool)
    requires 2 <= base <= 16
    ensures Value(Digits(u, base, upcase), base) == u
    ensures Word(Digits(u, base, upcase)) && Digits(u, base, upcase)[0] != '-'
    decreases u
  {
    hide Digits, DigitChar, DigitValue, Value;
    DigitsStep(u, base, upcase);
    DivMod(u, base);
    DigitCharValue(u % base, upcase);
    var c := DigitChar(u % base, upcase);
    if u >= base {
      DigitsRoundTrip(u / base, base, upcase);
      ValueSnoc(Digits(u / base, base, upcase), c, base);
    } else {
      SmallMod(u, base);
      ValueOne(c, base);
    }
  }

  lemma ValueOne(c: char, base: nat)
    ensures Value([c], base) == DigitValue(c)
  {
    ValueSnoc([], c, base);
    assert [] + [c] == [c];
  }

  lemma SmallMod(u: nat, base: nat)
    requires u < base
    ensures u % base == u
  {}

  lemma {:induction false} LeadingZeros(n: int, s: seq<char>, base: nat)
    ensures Value(Repeat('0', n) + s, base) == Value(s, base)
    decreases |s|, n
  {
    var z := Repeat('0', n);
    if s != [] {
      LeadingZeros(n, s[..|s| - 1], base);
      assert (z + s)[..|z + s| - 1] == z + s[..|s| - 1];
    } else if n > 0 {
      LeadingZeros(n - 1, [], base);
      assert (z + s)[..|z + s| - 1] == Repeat('0', n - 1) + s;
    }
  }

  lemma {:induction false} TakeWordStops(w: seq<char>, n: int)
    requires Word(w)
    ensures TakeWord(w + Repeat(' ', n)) == w
    decreases |w|
  {
    var s := w + Repeat(' ', n);
    if w != [] {
      TakeWordStops(w[1..], n);
      assert s[1..] == w[1..] + Repeat(' ', n);
    }
  }

  lemma {:induction false} DropBlanksAll(n: int, w: seq<char>)
    requires w != [] && w[0] != ' '
    ensures DropBlanks(Repeat(' ', n) + w) == w
    decreases n
  {
    var s := Repeat(' ', n) + w;
    if n > 0 {
      DropBlanksAll(n - 1, w);
      assert s[1..] == Repeat(' ', n - 1) + w;
    } else {
      assert s == w;
    }
  }

  /** Print and parse are inverse: for every value, base, sign, width, adjustment and letter
      case, with blank or zero padding, the field reads back as the signed value. */
  lemma FieldRoundTrip(u: nat, base: nat, neg: bool, length: int, ladjust: bool, padc: char, upcase: bool)
    requires 2 <= base <= 16 && (padc == ' ' || padc == '0')
    ensures Parse(Field(u, base, neg, length, ladjust, padc, upcase), base) == if neg then -(u as int) else u as int
    ensures |Field(u, base, neg, length, ladjust, padc, upcase)| == Max(length, |Digits(u, base, upcase)| + |Sign(neg)|)
  {
    hide *;
    DigitsRoundTrip(u, base, upcase);
    FramedRoundTrip(Digits(u, base, upcase), neg, length, ladjust, padc, base);
    FieldIs(u, base, neg, length, ladjust, padc, upcase);
  }

  lemma FieldIs(u: nat, base: nat, neg: bool, length: int, ladjust: bool, padc: char, upcase: bool)
    requires 2 <= base <= 16
    ensures Field(u, base, neg, length, ladjust, padc, upcase)
            == Framed(Digits(u, base, upcase), neg, length, ladjust, padc)
  {
    hide Digits, Framed;
  }

  lemma FramedRoundTrip(digits: seq<char>, neg: bool, length: int, ladjust: bool, padc: char, base: nat)
    requires digits != [] && Word(digits) && digits[0] != '-' && (padc == ' ' || padc == '0')
    ensures Parse(Framed(digits, neg, length, ladjust, padc), base)
         == if neg then -(Value(digits, base) as int) else Value(digits, base) as int
    ensures |Framed(digits, neg, length, ladjust, padc)| == Max(length, |digits| + |Sign(neg)|)
  {
    hide Parse, Value, Word;
    var pad := length - |digits| - |Sign(neg)|;
    if ladjust {
      ReadsBack(0, neg, 0, digits, pad, base);
      assert Repeat(' ', 0) + (Sign(neg) + (Repeat('0', 0) + digits) + Repeat(' ', pad)) == Sign(neg) + digits
             + Repeat(' ', pad);
    } else if padc == '0' {
      ReadsBack(0, neg, pad, digits, 0, base);
      assert Repeat(' ', 0) + (Sign(neg) + (Repeat('0', pad) + digits) + Repeat(' ', 0)) == Sign(neg) + Repeat('0', pad)
             + digits;
    } else {
      ReadsBack(pad, neg, 0, digits, 0, base);
      assert Repeat(' ', pad) + (Sign(neg) + (Repeat('0', 0) + digits) + Repeat(' ', 0)) == Repeat(' ', pad) + Sign(neg)
             + digits;
    }
  }

  /** Blanks, sign, zeros, digits and blanks read back as the signed value of the digits. */
  lemma ReadsBack(before: int, neg: bool, zeros: int, digits: seq<char>, after: int, base: nat)
    requires digits != [] && Word(digits) && digits[0] != '-'
    ensures Parse(Repeat(' ', before) + (Sign(neg) + (Repeat('0', zeros) + digits) + Repeat(' ', after)), base)
         == if neg then -(Value(digits, base) as int) else Value(digits, base) as int
  {
    var body := Repeat('0', zeros) + digits;
    var w := Sign(neg) + body;
    LeadingZeros(zeros, digits, base);
    assert body[0] != '-' && Word(body);
    assert w[0] != ' ' && Word(w);
    DropBlanksAll(before, w + Repeat(' ', after));
    TakeWordStops(w, after);
    assert neg ==> w[1..] == body;
    assert !neg ==> w == body;
    hide Value, DropBlanks, TakeWord;
  }

  /** Two values never share a field. */
  lemma FieldInjective(u: nat, v: nat, base: nat, neg: bool, length: int, ladjust: bool, padc: char, upcase: bool)
    requires 2 <= base <= 16 && (padc == ' ' || padc == '0')
    requires Field(u, base, neg, length, ladjust, padc, upcase) == Field(v, base, neg, length, ladjust, padc, upcase)
    ensures u == v
  {
    FieldRoundTrip(u, base, neg, length, ladjust, padc, upcase);
    FieldRoundTrip(v, base, neg, length, ladjust, padc, upcase);
  }

  /* ---------- the one way to write a number ---------- */

  /** A digit of this base, letters in the asked case. */
  ghost predicate IsDigit(c: char, base: nat, upcase: bool) {
    && ('0' <= c <= '9' || (if upcase then 'A' <= c <= 'F' else 'a' <= c <= 'f'))
    && DigitValue(c) < base
  }

  /** Digits of this base without a leading zero, or the single zero. */
  ghost predicate Numeral(s: seq<char>, base: nat, upcase: bool) {
    s != [] && (forall i :: 0 <= i < |s| ==> IsDigit(s[i], base, upcase)) && (s[0] == '0' ==> |s| == 1)
  }

  lemma {:induction false} DigitsNumeral(u: nat, base: nat, upcase: bool)
    requires 2 <= base <= 16
    ensures Numeral(Digits(u, base, upcase), base, upcase) && (u > 0 ==> Digits(u, base, upcase)[0] != '0')
    decreases u
  {
    hide Digits;
    DigitsStep(u, base, upcase);
    if u >= base { DigitsNumeral(u / base, base, upcase); } else { SmallMod(u, base); }
  }

  lemma {:induction false} NumeralPositive(s: seq<char>, base: nat, upcase: bool)
    requires Numeral(s, base, upcase) && s[0] != '0' && base >= 2
    ensures Value(s, base) > 0
    decreases |s|
  {
    var c := s[|s| - 1];
    if |s| > 1 {
      NumeralPositive(s[..|s| - 1], base, upcase);
      Monotone(base, 1, Value(s[..|s| - 1], base));
    } else {
      assert s == [c];
      ValueOne(c, base);
    }
  }

  lemma QuotientIs(q: nat, d: nat, base: nat)
    requires d < base
    ensures (q * base + d) / base == q && (q * base + d) % base == d
  {
    var u := q * base + d;
    DivMod(u, base);
    if u / base > q { Monotone(base, q + 1, u / base); } else if u / base < q { Monotone(base, u / base + 1, q); }
  }

  /** A value has one numeral in each base and case. */
  lemma {:induction false} NumeralUnique(s: seq<char>, t: seq<char>, base: nat, upcase: bool)
    requires Numeral(s, base, upcase) && Numeral(t, base, upcase) && Value(s, base) == Value(t, base) && base >= 2
    ensures s == t
    decreases |s| + |t|
  {
    hide Value;
    var (a, b, c, d) := (s[..|s| - 1], t[..|t| - 1], s[|s| - 1], t[|t| - 1]);
    assert s == a + [c] && t == b + [d];
    ValueSnoc(a, c, base);
    ValueSnoc(b, d, base);
    QuotientIs(Value(a, base), DigitValue(c), base);
    QuotientIs(Value(b, base), DigitValue(d), base);
    if a != [] && b != [] {
      NumeralUnique(a, b, base, upcase);
    } else if a != [] {
      NumeralPositive(a, base, upcase);
      NoValue(base);
      assert false;
    } else if b != [] {
      NumeralPositive(b, base, upcase);
      NoValue(base);
      assert false;
    }
  }

  lemma NoValue(base: nat)
    ensures Value([], base) == 0
  {}

  /** How a number stands in its field, position by position: the digits at the asked side, a minus sign
      just before them or, with zeros, at the very front; all else is blank, or zeros. The field is as
      wide as asked, or as wide as the number. */
  ghost predicate Laid(f: seq<char>, digits: seq<char>, neg: bool, width: int, ladjust: bool, padc: char) {
    var room := |digits| + if neg then 1 else 0;
    var at := if !ladjust then |f| - |digits| else if neg then 1 else 0;
    var sign := if !ladjust && padc == '0' then 0 else at - 1;
    && |f| == Max(width, room)
    && forall i :: 0 <= i < |f| ==>
         f[i] == if at <= i < at + |digits| then digits[i - at] else if neg && i == sign then '-'
                 else if ladjust then ' ' else padc
  }

  /** f shows value in this base: its one numeral, with its sign, in its place; and it reads back. */
  ghost predicate Shows(f: seq<char>, value: int, base: nat, upcase: bool, width: int, ladjust: bool, padc: char) {
    && Parse(f, base) == value
    && exists digits :: Numeral(digits, base, upcase) && Value(digits, base) == (if value < 0 then -value else value)
                        && Laid(f, digits, value < 0, width, ladjust, padc)
  }

  lemma FramedLaid(digits: seq<char>, neg: bool, length: int, ladjust: bool, padc: char)
    requires digits != []
    ensures Laid(Framed(digits, neg, length, ladjust, padc), digits, neg, length, ladjust, padc)
  {}

  /** Every field shows its number. */
  lemma FieldShows(u: nat, base: nat, neg: bool, length: int, ladjust: bool, padc: char, upcase: bool)
    requires 2 <= base <= 16 && (padc == ' ' || padc == '0') && (neg ==> u > 0)
    ensures Shows(Field(u, base, neg, length, ladjust, padc, upcase), if neg then -(u as int) else u as int, base,
                  upcase, length, ladjust, padc)
  {
    hide Digits, Framed, Numeral, Laid, Value, Parse, Word;
    DigitsRoundTrip(u, base, upcase);
    DigitsNumeral(u, base, upcase);
    FramedLaid(Digits(u, base, upcase), neg, length, ladjust, padc);
    FieldRoundTrip(u, base, neg, length, ladjust, padc, upcase);
  }

  /** Value and format leave no choice: two texts that show the same value are the same text. */
  lemma ShowsUnique(f: seq<char>, g: seq<char>, value: int, base: nat, upcase: bool, width: int, ladjust: bool,
        padc: char)
    requires Shows(f, value, base, upcase, width, ladjust, padc) && Shows(g, value, base, upcase, width, ladjust, padc)
    requires base >= 2
    ensures f == g
  {
    hide Numeral, Value, Parse;
    var n := if value < 0 then -value else value;
    var s :| Numeral(s, base, upcase) && Value(s, base) == n && Laid(f, s, value < 0, width, ladjust, padc);
    var t :| Numeral(t, base, upcase) && Value(t, base) == n && Laid(g, t, value < 0, width, ladjust, padc);
    NumeralUnique(s, t, base, upcase);
  }

  /* ---------- the code ---------- */

  function Reversed<T>(s: seq<T>): (r: seq<T>)
    ensures |r| == |s|
    ensures forall i :: 0 <= i < |s| ==> r[i] == s[|s| - 1 - i]
  {
    seq(|s|, i requires 0 <= i < |s| => s[|s| - 1 - i])
  }

  /** The do loop: least significant digit first. */
  method PutDigits(buf: array<char>, u: nat, base: nat, upcase: bool) returns (n: nat)
    requires 2 <= base <= 16 && |Digits(u, base, upcase)| <= buf.Length
    modifies buf
    ensures n == |Digits(u, base, upcase)| && n <= buf.Length
    ensures buf[..] == Reversed(Digits(u, base, upcase)) + old(buf[n..])
  {
    hide Digits, DigitChar;
    n := 0;
    var rest: nat, done := u, false;
    ghost var all := Digits(u, base, upcase);
    while !done
      invariant n <= buf.Length
      invariant !done ==>
                  |Digits(rest, base, upcase)| + n == |all| && all == Digits(rest, base, upcase) + Reversed(buf[..n])
      invariant done ==> n == |all| && Reversed(buf[..n]) == all
      invariant forall i :: n <= i < buf.Length ==> buf[i] == old(buf[i])
      decreases !done, rest
    {
      ghost var before := buf[..n];
      DigitsStep(rest, base, upcase);
      var tmp := rest % base;
      buf[n] := DigitChar(tmp, upcase);
      ReversedSnoc(before, DigitChar(tmp, upcase));
      assert buf[..n + 1] == before + [DigitChar(tmp, upcase)];
      n := n + 1;
      rest := rest / base;
      done := rest == 0;
    }
    assert buf[..n] == Reversed(all);
    assert buf[n..] == old(buf[n..]);
  }

  lemma ReversedSnoc<T>(s: seq<T>, x: T)
    ensures Reversed(s + [x]) == [x] + Reversed(s)
  {}

  /** The swapping loop. */
  method ReversePrefix(buf: array<char>, n: nat)
    requires n <= buf.Length
    modifies buf
    ensures buf[..] == Reversed(old(buf[..n])) + old(buf[n..])
  {
    var begin, end := 0, n - 1;
    while end > begin
      invariant 0 <= begin <= n && begin + end == n - 1
      invariant forall i :: 0 <= i < begin || end < i < n ==> buf[i] == old(buf[n - 1 - i])
      invariant forall i :: begin <= i <= end ==> buf[i] == old(buf[i])
      invariant forall i :: n <= i < buf.Length ==> buf[i] == old(buf[i])
    {
      buf[begin], buf[end] := buf[end], buf[begin];
      begin, end := begin + 1, end - 1;
    }
  }

  /** Fill [from, to) with c. */
  method Fill(buf: array<char>, from: nat, to: int, c: char)
    requires from <= buf.Length && to <= buf.Length
    modifies buf
    ensures forall i :: 0 <= i < buf.Length ==> buf[i] == if from <= i < to then c else old(buf[i])
  {
    var i: int := from;
    while i < to
      invariant from <= i && (i <= to || i == from)
      invariant forall j :: 0 <= j < buf.Length ==> buf[j] == if from <= j < i then c else old(buf[j])
    {
      buf[i] := c;
      i := i + 1;
    }
  }

  /** The buffer before it is reversed. */
  ghost function Raw(digits: seq<char>, neg: bool, length: int, ladjust: bool, pad: char): seq<char> {
    var n := length - |digits| - |Sign(neg)|;
    if neg && !ladjust && pad == '0' then Reversed(digits) + Repeat('0', n) + "-"
    else Reversed(digits) + Sign(neg) + Repeat(pad, n)
  }

  /** The sign and the padding, behind n reversed digits. */
  method PutPadding(buf: array<char>, n: nat, ghost digits: seq<char>, negFlag: bool, length: int, ladjust: bool,
        padc: char)
    returns (actual: nat, len: nat)
    requires 0 < n == |digits| && Max(length, n + |Sign(negFlag)|) <= buf.Length && buf[..n] == Reversed(digits)
    modifies buf
    ensures actual == n + |Sign(negFlag)| && len == Max(length, actual) && len <= buf.Length
    ensures buf[..] == Raw(digits, negFlag, length, ladjust, padc) + old(buf[len..])
  {
    actual := n;
    ghost var v := buf[..];
    if negFlag {
      buf[actual] := '-';
      actual := actual + 1;
    }
    len := if length < actual then actual else length;
    if negFlag && !ladjust && padc == '0' {
      Fill(buf, actual - 1, len - 1, padc);
      buf[len - 1] := '-';
    } else {
      Fill(buf, actual, len, padc);
    }
    Padded(v, buf[..], digits, negFlag, length, ladjust, padc);
  }

  /** The buffer after the padding loops, position by position. */
  lemma Padded(v: seq<char>, w: seq<char>, digits: seq<char>, neg: bool, length: int, ladjust: bool, padc: char)
    requires Max(length, |digits| + |Sign(neg)|) <= |v| == |w| && v[..|digits|] == Reversed(digits)
    requires var len, inside := Max(length, |digits| + |Sign(neg)|), neg && !ladjust && padc == '0';
             forall i :: 0 <= i < |w| ==>
               w[i] == if i < |digits| || i >= len then v[i]
                       else if neg && i == (if inside then len - 1 else |digits|) then '-' else padc
    ensures var len := Max(length, |digits| + |Sign(neg)|);
            w == Raw(digits, neg, length, ladjust, padc) + v[len..]
  {
    var len, inside := Max(length, |digits| + |Sign(neg)|), neg && !ladjust && padc == '0';
    var n := len - |digits| - |Sign(neg)|;
    assert w[..|digits|] == Reversed(digits);
    if inside {
      assert w[|digits|..len] == Repeat('0', n) + "-";
    } else {
      assert w[|digits|..len] == Sign(neg) + Repeat(padc, n);
    }
    assert w == w[..|digits|] + w[|digits|..len] + w[len..];
    assert w[len..] == v[len..];
  }

  lemma ReversedAppend<T>(a: seq<T>, b: seq<T>)
    ensures Reversed(a + b) == Reversed(b) + Reversed(a)
  {}

  lemma ReversedTwice<T>(a: seq<T>)
    ensures Reversed(Reversed(a)) == a
  {}

  lemma ReversedRepeat(c: char, n: int)
    ensures Reversed(Repeat(c, n)) == Repeat(c, n)
  {}

  /** Reversing all of a right-adjusted buffer gives the field. */
  lemma RightReversed(digits: seq<char>, neg: bool, length: int, pad: char)
    ensures Reversed(Raw(digits, neg, length, false, pad)) == Framed(digits, neg, length, false, pad)
    ensures |Raw(digits, neg, length, false, pad)| == Max(length, |digits| + |Sign(neg)|)
  {
    var n := length - |digits| - |Sign(neg)|;
    ReversedTwice(digits);
    ReversedRepeat(pad, n);
    if neg && pad == '0' {
      ReversedAppend(Reversed(digits) + Repeat('0', n), "-");
      ReversedAppend(Reversed(digits), Repeat('0', n));
      assert Reversed("-") == "-";
      assert "-" + (Repeat('0', n) + digits) == Sign(neg) + Repeat('0', n) + digits;
    } else {
      ReversedAppend(Reversed(digits) + Sign(neg), Repeat(pad, n));
      ReversedAppend(Reversed(digits), Sign(neg));
      assert Reversed(Sign(neg)) == Sign(neg);
      assert Repeat(pad, n) + (Sign(neg) + digits) == Repeat(pad, n) + Sign(neg) + digits;
      assert !neg && pad == '0' ==> Repeat(pad, n) + Sign(neg) + digits == Sign(neg) + Repeat('0', n) + digits;
    }
  }

  /** Reversing only the number of a left-adjusted buffer gives the field. */
  lemma LeftReversed(digits: seq<char>, neg: bool, length: int, padc: char)
    ensures var raw, k := Raw(digits, neg, length, true, ' '), |digits| + |Sign(neg)|;
            k <= |raw| == Max(length, k) && Reversed(raw[..k]) + raw[k..] == Framed(digits, neg, length, true, padc)
  {
    var raw, k := Raw(digits, neg, length, true, ' '), |digits| + |Sign(neg)|;
    assert raw[..k] == Reversed(digits) + Sign(neg);
    assert raw[k..] == Repeat(' ', length - k);
    ReversedAppend(Reversed(digits), Sign(neg));
    ReversedTwice(digits);
    assert Reversed(Sign(neg)) == Sign(neg);
  }

  /** PrintNum leaves exactly the field in the front of the buffer and nothing else changes. */
  method PrintNum(buf: array<char>, u: nat, base: nat, negFlag: bool, length: int, ladjust: bool, padc: char,
        upcase: bool)
    returns (len: nat)
    requires 2 <= base <= 16
    requires Max(length, |Digits(u, base, upcase)| + |Sign(negFlag)|) <= buf.Length
    modifies buf
    ensures len == Max(length, |Digits(u, base, upcase)| + |Sign(negFlag)|) && len <= buf.Length
    ensures buf[..] == Field(u, base, negFlag, length, ladjust, padc, upcase) + old(buf[len..])
  {
    hide Digits, Field, Framed, Raw, Reversed;
    ghost var ds, b0 := Digits(u, base, upcase), buf[..];
    FieldIs(u, base, negFlag, length, ladjust, padc, upcase);
    var n := PutDigits(buf, u, base, upcase);
    ghost var b1 := buf[..];
    assert buf[..n] == b1[..n] == Reversed(ds);
    var pad, actual := if ladjust then ' ' else padc, 0;
    actual, len := PutPadding(buf, n, ds, negFlag, length, ladjust, pad);
    ghost var b2 := buf[..];
    var end := if ladjust then actual else len;
    ReversePrefix(buf, end);
    Assemble(ds, negFlag, length, ladjust, padc, b0, b1, b2);
  }

  /** The three passes over the buffer compose to the field. */
  lemma Assemble(ds: seq<char>, neg: bool, length: int, ladjust: bool, padc: char, b0: seq<char>, b1: seq<char>,
        b2: seq<char>)
    requires Max(length, |ds| + |Sign(neg)|) <= |b0| && b1 == Reversed(ds) + b0[|ds|..]
    requires var len, pad := Max(length, |ds| + |Sign(neg)|), if ladjust then ' ' else padc;
             b2 == Raw(ds, neg, length, ladjust, pad) + b1[len..]
    ensures var len := Max(length, |ds| + |Sign(neg)|);
            var end := if ladjust then |ds| + |Sign(neg)| else len;
            end <= |b2| && Reversed(b2[..end]) + b2[end..] == Framed(ds, neg, length, ladjust, padc) + b0[len..]
  {
    hide Framed, Raw;
    var len, pad := Max(length, |ds| + |Sign(neg)|), if ladjust then ' ' else padc;
    var raw := Raw(ds, neg, length, ladjust, pad);
    Suffix(Reversed(ds), b0, |ds|, len);
    if ladjust {
      LeftReversed(ds, neg, length, padc);
      Turn(raw, b0[len..], |ds| + |Sign(neg)|);
    } else {
      RightReversed(ds, neg, length, pad);
      Whole(raw, len);
      Turn(raw, b0[len..], len);
    }
  }

  /** Turning a prefix of raw leaves what follows raw alone. */
  lemma Turn(raw: seq<char>, tail: seq<char>, k: nat)
    requires k <= |raw|
    ensures Reversed((raw + tail)[..k]) + (raw + tail)[k..] == Reversed(raw[..k]) + raw[k..] + tail
  {
    assert (raw + tail)[..k] == raw[..k];
    assert (raw + tail)[k..] == raw[k..] + tail;
  }

  lemma Whole(raw: seq<char>, len: nat)
    requires len == |raw|
    ensures Reversed(raw[..len]) + raw[len..] == Reversed(raw)
  {
    assert raw[..len] == raw && raw[len..] == [];
  }

  lemma Suffix(front: seq<char>, s: seq<char>, n: nat, len: nat)
    requires |front| == n <= len <= |s|
    ensures (front + s[n..])[len..] == s[len..]
  {}

  /** PrintString: the whole string, padded with blanks on one side up to the width. */
  method PrintString(buf: array<char>, s: seq<char>, length: int, ladjust: bool) returns (width: nat)
    requires Max(length, |s|) <= buf.Length
    modifies buf
    ensures width == Max(length, |s|)
    ensures var blanks := Repeat(' ', length - |s|);
            buf[..] == (if ladjust then s + blanks else blanks + s) + old(buf[width..])
  {
    width := if length < |s| then |s| else length;
    ghost var v := buf[..];
    var from := if ladjust then 0 else width - |s|;
    Fill(buf, if ladjust then |s| else 0, if ladjust then width else from, ' ');
    ghost var filled := buf[..];
    for i := from to from + |s|
      invariant forall j :: 0 <= j < buf.Length ==> buf[j] == if from <= j < i then s[j - from] else filled[j]
    {
      buf[i] := s[i - from];
    }
    Placed(v, buf[..], s, from, width, ladjust);
  }

  lemma Placed(v: seq<char>, w: seq<char>, s: seq<char>, from: nat, width: nat, ladjust: bool)
    requires |s| <= width <= |v| == |w| && from == if ladjust then 0 else width - |s|
    requires forall j :: 0 <= j < |w| ==>
      w[j] == if from <= j < from + |s| then s[j - from] else if j < width then ' ' else v[j]
    ensures var blanks := Repeat(' ', width - |s|);
            w == (if ladjust then s + blanks else blanks + s) + v[width..]
  {
    assert w[from..from + |s|] == s;
    assert w[width..] == v[width..];
    assert (if ladjust then w[|s|..width] else w[..from]) == Repeat(' ', width - |s|);
    assert w == w[..from] + w[from..from + |s|] + w[from + |s|..width] + w[width..];
  }

  /** A word survives padding on either side. */
  lemma StringFieldRoundTrip(s: seq<char>, length: int, ladjust: bool)
    requires Word(s) && s != []
    ensures var blanks := Repeat(' ', length - |s|);
            TakeWord(DropBlanks(if ladjust then s + blanks else blanks + s)) == s
  {
    var n := length - |s|;
    TakeWordStops(s, n);
    TakeWordStops(s, 0);
    DropBlanksAll(n, s);
    DropBlanksAll(0, s + Repeat(' ', n));
    assert Repeat(' ', 0) + (s + Repeat(' ', n)) == s + Repeat(' ', n);
    assert s + Repeat(' ', 0) == s;
  }

  /* ---------- the numeric conversions of lp_Print ---------- */

  const TWO32 := 0x1_0000_0000

  /** A 32-bit long passed as unsigned long. */
  function AsUnsigned(num: int): nat
    requires -0x8000_0000 <= num < 0x8000_0000
  {
    if num < 0 then num + TWO32 else num
  }

  lemma Front(a: seq<char>, b: seq<char>, s: seq<char>, len: nat)
    requires s == a + b && len == |a|
    ensures s[..len] == a && s[len..] == b
  {}

  const LP_MAX_BUF := 80

  /** PrintNum writes the whole field before lp_Print looks at its length; the buffer is respected
      exactly when the width is at most its size. */
  lemma FieldFitsIff(u: nat, base: nat, neg: bool, width: nat, ladjust: bool, padc: char, upcase: bool)
    requires 2 <= base <= 16 && u < TWO32 && (padc == ' ' || padc == '0')
    ensures |Field(u, base, neg, width, ladjust, padc, upcase)| <= LP_MAX_BUF <==> width <= LP_MAX_BUF
  {
    hide Parse, Field, Digits, Power;
    PowerAt32();
    FewDigits(u, base, upcase, 32);
    FieldRoundTrip(u, base, neg, width, ladjust, padc, upcase);
  }

  /** The numeric branches of lp_Print. d and D show the signed argument in base 10, u and U the unsigned
      one; o and O show it in base 8, x and X in base 16 with small and capital letters, b in base 2.
      (Negating the least long wraps around to itself, which as unsigned is its magnitude.) */
  method PrintConversion(buf: array<char>, conv: char, num: int, width: nat, ladjust: bool, padc: char)
        returns (len: nat)
    requires conv in "bdDoOuUxX" && -0x8000_0000 <= num < 0x8000_0000 && (padc == ' ' || padc == '0')
    requires buf.Length == LP_MAX_BUF && width <= LP_MAX_BUF
    modifies buf
    ensures width <= len <= LP_MAX_BUF && buf[len..] == old(buf[len..])
    ensures conv == 'd' || conv == 'D' ==> Shows(buf[..len], num, 10, false, width, ladjust, padc)
    ensures conv == 'u' || conv == 'U' ==> Shows(buf[..len], num % TWO32, 10, false, width, ladjust, padc)
    ensures conv == 'o' || conv == 'O' ==> Shows(buf[..len], num % TWO32, 8, false, width, ladjust, padc)
    ensures conv == 'x' ==> Shows(buf[..len], num % TWO32, 16, false, width, ladjust, padc)
    ensures conv == 'X' ==> Shows(buf[..len], num % TWO32, 16, true, width, ladjust, padc)
    ensures conv == 'b' ==> Shows(buf[..len], num % TWO32, 2, false, width, ladjust, padc)
  {
    hide Shows, Field, Digits, Power;
    var u, base, neg, upcase := AsUnsigned(num), 10, false, false;
    if conv == 'b' {
      base := 2;
    } else if conv == 'd' || conv == 'D' {
      if num < 0 { u, neg := AsUnsigned(if num == -0x8000_0000 then num else -num), true; }
    } else if conv == 'o' || conv == 'O' {
      base := 8;
    } else if conv == 'x' {
      base := 16;
    } else if conv == 'X' {
      base, upcase := 16, true;
    }
    PowerAt32();
    FewDigits(u, base, upcase, 32);
    FieldRoundTrip(u, base, neg, width, ladjust, padc, upcase);
    FieldShows(u, base, neg, width, ladjust, padc, upcase);
    len := PrintNum(buf, u, base, neg, width, ladjust, padc, upcase);
    Front(Field(u, base, neg, width, ladjust, padc, upcase), old(buf[..])[len..], buf[..], len);
  }

  lemma {:induction false} FewDigits(u: nat, base: nat, upcase: bool, k: nat)
    requires 2 <= base <= 16 && 0 < k && u < Power(k)
    ensures |Digits(u, base, upcase)| <= k
    decreases k
  {
    DigitsStep(u, base, upcase);
    if u >= base {
      HalfBound(u, base, Power(k - 1));
      FewDigits(u / base, base, upcase, k - 1);
    }
  }

  lemma HalfBound(u: nat, base: nat, p: nat)
    requires 2 <= base <= u < 2 * p
    ensures 1 < p && u / base < p
  {
    DivMod(u, base);
    Monotone(u / base, 2, base);
  }

  lemma Monotone(q: nat, a: nat, b: nat)
    requires a <= b
    ensures q * a <= q * b
  {}
}
