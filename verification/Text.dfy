/** The string operations the generators and parsers use: decimal integers, splitting,
    joining and trimming. */
module Text {
  import opened Words

  // ---------- decimal integers ----------

  function Digit(d: nat): char
    requires d < 10
  {
    ['0', '1', '2', '3', '4', '5', '6', '7', '8', '9'][d]
  }

  predicate IsDigit(c: char) {
    '0' <= c <= '9'
  }

  function Decimal(n: nat): (s: string)
    ensures |s| > 0 && forall i | 0 <= i < |s| :: IsDigit(s[i])
  {
    if n < 10 then [Digit(n)] else Decimal(n / 10) + [Digit(n % 10)]
  }

  // strconv.Itoa
  function Itoa(n: int): (s: string)
    ensures |s| > 0 && forall i | 0 <= i < |s| :: IsDigit(s[i]) || s[i] == '-'
  {
    if n < 0 then "-" + Decimal(-n) else Decimal(n)
  }

  // The number a nonempty string of digits spells.
  function ParseDigits(s: string): Option<nat> {
    if s == [] then None
    else
      var c, rest := s[|s| - 1], s[..|s| - 1];
      if !IsDigit(c) then None
      else
        var d := c as int - '0' as int;
        if rest == [] then Some(d)
        else
          var high := ParseDigits(rest);
          if high.None? then None else Some(high.value * 10 + d)
  }

  // An integer fits Go's int (and int64).
  predicate IsInt64(n: int) {
    -0x8000_0000_0000_0000 <= n < 0x8000_0000_0000_0000
  }

  // strconv.Atoi and strconv.ParseInt(s, 10, 64): an optional sign, then digits, in range.
  function ParseInt(s: string): Option<int> {
    if s == [] then None
    else
      var magnitude := if s[0] == '-' || s[0] == '+' then ParseDigits(s[1..]) else ParseDigits(s);
      if magnitude.None? then None
      else
        var m: int := magnitude.value;
        var n := if s[0] == '-' then -m else m;
        if IsInt64(n) then Some(n) else None
  }

  lemma {:induction false} ParseDecimal(n: nat)
    ensures ParseDigits(Decimal(n)) == Some(n)
  {
    if n >= 10 {
      ParseDecimal(n / 10);
      var s := Decimal(n);
      assert s[..|s| - 1] == Decimal(n / 10) && s[|s| - 1] == Digit(n % 10);
    }
  }

  // Printing then parsing an integer is the identity.
  lemma ParseItoa(n: int)
    requires IsInt64(n)
    ensures ParseInt(Itoa(n)) == Some(n)
  {
    hide Decimal, ParseDigits;
    if n < 0 {
      ParseDecimal(-n);
      assert Itoa(n)[1..] == Decimal(-n);
    } else {
      ParseDecimal(n);
    }
  }

  lemma NatHasNo(n: nat, c: char)
    requires !IsDigit(c)
    ensures c !in Itoa(n)
  {
    assert forall i | 0 <= i < |Itoa(n)| :: IsDigit(Itoa(n)[i]);
  }

  // The decimal text of a natural number, of any size, determines it.
  lemma ParsesBack(n: nat)
    ensures ParseDigits(Itoa(n)) == Some(n)
  {
    ParseDecimal(n);
  }

  // ---------- splitting and joining ----------

  // strings.Split on a one-character separator.
  function Split(s: string, sep: char): (r: seq<string>)
    ensures |r| >= 1
  {
    if s == [] then [[]]
    else
      var rest := Split(s[1..], sep);
      if s[0] == sep then [[]] + rest else [[s[0]] + rest[0]] + rest[1..]
  }

  // strings.Join with a one-character separator.
  function Join(ss: seq<string>, sep: char): string {
    if ss == [] then []
    else if |ss| == 1 then ss[0]
    else ss[0] + [sep] + Join(ss[1..], sep)
  }

  lemma {:induction false} SplitNone(s: string, sep: char)
    requires sep !in s
    ensures Split(s, sep) == [s]
  {
    if s != [] {
      SplitNone(s[1..], sep);
      assert [s[0]] + s[1..] == s;
    }
  }

  lemma {:induction false} SplitFirst(a: string, rest: string, sep: char)
    requires sep !in a
    ensures Split(a + [sep] + rest, sep) == [a] + Split(rest, sep)
  {
    var s := a + [sep] + rest;
    if a == [] {
      assert s[1..] == rest;
    } else {
      assert s[1..] == a[1..] + [sep] + rest;
      SplitFirst(a[1..], rest, sep);
      assert [a[0]] + a[1..] == a;
    }
  }

  // Splitting undoes joining when no piece contains the separator.
  lemma {:induction false} SplitJoin(ss: seq<string>, sep: char)
    requires ss != [] && forall i | 0 <= i < |ss| :: sep !in ss[i]
    ensures Split(Join(ss, sep), sep) == ss
  {
    if |ss| == 1 {
      SplitNone(ss[0], sep);
    } else {
      SplitFirst(ss[0], Join(ss[1..], sep), sep);
      SplitJoin(ss[1..], sep);
    }
  }

  // ---------- trimming ----------

  // unicode.IsSpace
  predicate IsSpace(c: char) {
    || c == ' ' || '\t' <= c <= '\r' || c == '\U{85}' || c == '\U{A0}' || c == '\U{1680}'
    || '\U{2000}' <= c <= '\U{200A}' || c == '\U{2028}' || c == '\U{2029}' || c == '\U{202F}'
    || c == '\U{205F}' || c == '\U{3000}'
  }

  // strings.TrimSpace
  function TrimSpace(s: string): string {
    if s == [] then []
    else if IsSpace(s[0]) then TrimSpace(s[1..])
    else if IsSpace(s[|s| - 1]) then TrimSpace(s[..|s| - 1])
    else s
  }

  predicate AllSpace(s: string) {
    forall i | 0 <= i < |s| :: IsSpace(s[i])
  }

  // Only spaces at the ends are taken off, and all of them.
  lemma {:induction false} TrimmedEnds(s: string)
    ensures var t := TrimSpace(s); t != [] ==> !IsSpace(t[0]) && !IsSpace(t[|t| - 1])
    decreases |s|
  {
    hide IsSpace;
    if s != [] {
      TrimmedEnds(s[1..]);
      TrimmedEnds(s[..|s| - 1]);
    }
  }

  lemma {:induction false} TrimmedMiddle(s: string) returns (a: string, b: string)
    ensures s == a + TrimSpace(s) + b && AllSpace(a) && AllSpace(b)
    decreases |s|
  {
    hide IsSpace;
    a, b := [], [];
    if s != [] {
      var n := |s| - 1;
      if IsSpace(s[0]) {
        a, b := TrimmedMiddle(s[1..]);
        assert s == [s[0]] + s[1..];
        a := [s[0]] + a;
      } else if IsSpace(s[n]) {
        a, b := TrimmedMiddle(s[..n]);
        assert s == s[..n] + [s[n]];
        b := b + [s[n]];
      }
    }
  }
}
