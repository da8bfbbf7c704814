/** The JavaScript string operations the web client relies on: splitting a
    file name on '.', joining pieces back with '.', and writing a
    millisecond timestamp in decimal (`Number.prototype.toString`). */
module JsText {
  import opened Base

  predicate IsDigit(c: char)
  {
    '0' <= c <= '9'
  }

  predicate AllDigits(s: string)
  {
    forall i :: 0 <= i < |s| ==> IsDigit(s[i])
  }

  function Digit(d: nat): (c: char)
    requires d < 10
    ensures IsDigit(c) && c as int - '0' as int == d
  {
    ('0' as int + d) as char
  }

  /** `n.toString()` for a non-negative integer below 10^21 (a clock
      reading in milliseconds is far below): its decimal digits, without
      leading zeros. */
  function Decimal(n: nat): (s: string)
    ensures |s| >= 1 && AllDigits(s)
    ensures |s| > 1 ==> s[0] != '0'
  {
    if n < 10 then [Digit(n)] else Decimal(n / 10) + [Digit(n % 10)]
  }

  /** The value of a string of decimal digits. */
  function ParseDecimal(s: string): nat
    requires AllDigits(s)
  {
    if s == [] then 0 else ParseDecimal(s[..|s| - 1]) * 10 + (s[|s| - 1] as int - '0' as int)
  }

  /** Reading the digits back gives the number: distinct clock readings
      give distinct strings. */
  lemma {:induction false} DecimalRoundTrip(n: nat)
    ensures ParseDecimal(Decimal(n)) == n
  {
    if n >= 10 {
      var s := Decimal(n);
      assert s[..|s| - 1] == Decimal(n / 10);
      DecimalRoundTrip(n / 10);
    }
  }

  lemma DecimalInjective(a: nat, b: nat)
    requires Decimal(a) == Decimal(b)
    ensures a == b
  {
    DecimalRoundTrip(a);
    DecimalRoundTrip(b);
  }

  /** The index of the first '.', if any. */
  function FirstDot(s: string): (r: Option<nat>)
    ensures r.None? <==> '.' !in s
    ensures r.Some? ==> r.value < |s| && s[r.value] == '.' && '.' !in s[..r.value]
  {
    if s == [] then None
    else if s[0] == '.' then Some(0)
    else match FirstDot(s[1..])
      case None => None
      case Some(i) => assert s[..i + 1] == [s[0]] + s[1..][..i]; Some(i + 1)
  }

  /** `s.split('.')`: the pieces between the dots, so one more piece than
      there are dots; the empty string gives one empty piece. */
  function Split(s: string): (parts: seq<string>)
    ensures |parts| >= 1
    ensures forall i :: 0 <= i < |parts| ==> '.' !in parts[i]
    decreases |s|
  {
    match FirstDot(s)
    case None => [s]
    case Some(i) => [s[..i]] + Split(s[i + 1..])
  }

  /** `parts.join('.')`. */
  function Join(parts: seq<string>): string
  {
    if |parts| == 0 then ""
    else if |parts| == 1 then parts[0]
    else parts[0] + "." + Join(parts[1..])
  }

  lemma DotSplit(s: string, i: nat)
    requires i < |s| && s[i] == '.'
    ensures s == s[..i] + "." + s[i + 1..]
  {
  }

  /** Joining the pieces of a split gives back the string. */
  lemma {:induction false} JoinSplit(s: string)
    ensures Join(Split(s)) == s
    decreases |s|
  {
    match FirstDot(s)
    case None =>
    case Some(i) =>
      var rest := Split(s[i + 1..]);
      JoinSplit(s[i + 1..]);
      assert ([s[..i]] + rest)[1..] == rest;
      DotSplit(s, i);
  }

  /** Splitting a join of dot-free pieces gives back the pieces. */
  lemma {:induction false} SplitJoin(parts: seq<string>)
    requires |parts| >= 1
    requires forall i :: 0 <= i < |parts| ==> '.' !in parts[i]
    ensures Split(Join(parts)) == parts
  {
    if |parts| > 1 {
      var head, s := parts[0], Join(parts);
      var tail := Join(parts[1..]);
      assert s == head + "." + tail;
      assert s[|head|] == '.' && s[..|head|] == head && s[|head| + 1..] == tail;
      assert FirstDot(s) == Some(|head|);
      SplitJoin(parts[1..]);
      assert [head] + parts[1..] == parts;
    }
  }

  /** The file name without its extension: `split('.').slice(0, -1).join('.')`. */
  function Stem(s: string): string
  {
    var parts := Split(s);
    Join(parts[..|parts| - 1])
  }

  /** The piece after the last '.'. */
  function LastPiece(s: string): string
  {
    var parts := Split(s);
    parts[|parts| - 1]
  }

  /** A name with a dot is its stem, a dot and a dot-free last piece; a name
      without a dot has an empty stem. */
  lemma {:induction false} StemAndLast(s: string)
    ensures '.' !in LastPiece(s)
    ensures '.' in s ==> s == Stem(s) + "." + LastPiece(s)
    ensures '.' !in s ==> Stem(s) == "" && LastPiece(s) == s
    decreases |s|
  {
    var r := FirstDot(s);
    if r.Some? {
      var i := r.value;
      var head, rest := s[..i], s[i + 1..];
      var rp := Split(rest);
      var parts := Split(s);
      assert parts == [head] + rp;
      assert LastPiece(s) == LastPiece(rest);
      DotSplit(s, i);
      StemAndLast(rest);
      if '.' in rest {
        StemOfDotted(head, rp);
        assert Stem(s) == head + "." + Stem(rest);
      } else {
        assert rp == [rest];
        assert parts[..|parts| - 1] == [head];
      }
    }
  }

  lemma StemOfDotted(head: string, rp: seq<string>)
    requires |rp| > 1
    ensures var parts := [head] + rp;
      Join(parts[..|parts| - 1]) == head + "." + Join(rp[..|rp| - 1])
  {
    var parts := [head] + rp;
    var init := parts[..|parts| - 1];
    assert init == [head] + rp[..|rp| - 1];
    assert init[1..] == rp[..|rp| - 1];
  }
}
