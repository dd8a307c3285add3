/** Retry response codes in parent.config: printed as a quoted comma-separated list and parsed
    back from parameters. */
module RetryCodes {
  import opened Words
  import opened Text

  // intsToStrs
  method IntsToStrs(codes: seq<int>) returns (strs: seq<string>)
    ensures strs == Strs(codes)
  {
    strs := [];
    for i := 0 to |codes|
      invariant strs == Strs(codes[..i])
    {
      assert codes[..i + 1][..i] == codes[..i];
      strs := strs + [Itoa(codes[i])];
    }
    assert codes[..|codes|] == codes;
  }

  function Strs(codes: seq<int>): seq<string> {
    seq(|codes|, i requires 0 <= i < |codes| => Itoa(codes[i]))
  }

  // The text of a code list, as it is put between quotes in the generated line.
  function Print(codes: seq<int>): string {
    Join(Strs(codes), ',')
  }

  // The codes of the comma-separated pieces; blanks are skipped, anything else must be an integer.
  function Codes(pieces: seq<string>): Option<seq<int>> {
    if pieces == [] then Some([])
    else
      var p, rest := TrimSpace(pieces[0]), Codes(pieces[1..]);
      if p == [] then rest
      else
        var n := ParseInt(p);
        if n.None? || rest.None? then None else Some([n.value] + rest.value)
  }

  // Trims, and takes off the first and last character if the first is a quote.
  function Unquote(resp: string): string {
    var r := TrimSpace(resp);
    if |r| > 2 && r[0] == '\"' then r[1..|r| - 1] else r
  }

  // What a parameter value means; None is the error "malformed".
  function Parse(resp: string): Option<seq<int>> {
    Codes(Split(Unquote(resp), ','))
  }

  method ParseRetryResponses(resp: string) returns (r: Option<seq<int>>)
    ensures r == Parse(resp)
  {
    var pieces := Split(Unquote(resp), ',');
    var codes: seq<int> := [];
    assert pieces[0..] == pieces;
    NonePrepended(Codes(pieces));
    for i := 0 to |pieces|
      invariant Prepend(codes, Codes(pieces[i..])) == Codes(pieces)
    {
      hide TrimSpace, ParseInt, Codes, Prepend;
      var codeStr := TrimSpace(pieces[i]);
      CodesAt(pieces, i, codes);
      if codeStr == "" {
        continue;
      }
      var code := ParseInt(codeStr);
      if code.None? {
        return None;
      }
      codes := codes + [code.value];
    }
    assert Codes([]) == Some([]) && codes + [] == codes;
    r := Some(codes);
  }

  // What the piece number `i` adds to the codes before it.
  lemma CodesAt(pieces: seq<string>, i: nat, codes: seq<int>)
    requires i < |pieces|
    ensures var p, rest := TrimSpace(pieces[i]), Codes(pieces[i + 1..]);
      Prepend(codes, Codes(pieces[i..])) ==
        if p == [] then Prepend(codes, rest)
        else if ParseInt(p).None? then None
        else Prepend(codes + [ParseInt(p).value], rest)
  {
    hide TrimSpace, ParseInt;
    assert pieces[i..][1..] == pieces[i + 1..];
    var p, rest := TrimSpace(pieces[i]), Codes(pieces[i + 1..]);
    if p != [] && ParseInt(p).Some? && rest.Some? {
      assert codes + ([ParseInt(p).value] + rest.value) == codes + [ParseInt(p).value] + rest.value;
    }
  }

  lemma NonePrepended(rest: Option<seq<int>>)
    ensures Prepend([], rest) == rest
  {
    assert rest.Some? ==> [] + rest.value == rest.value;
  }

  function Prepend(codes: seq<int>, rest: Option<seq<int>>): Option<seq<int>> {
    if rest.None? then None else Some(codes + rest.value)
  }

  lemma TrimNone(s: string)
    requires s != [] && !IsSpace(s[0]) && !IsSpace(s[|s| - 1])
    ensures TrimSpace(s) == s
  {
  }

  lemma {:induction false} CodesOfStrs(codes: seq<int>)
    requires forall i | 0 <= i < |codes| :: IsInt64(codes[i])
    ensures Codes(Strs(codes)) == Some(codes)
  {
    if codes != [] {
      hide TrimSpace, ParseInt, Itoa, Codes, Strs;
      StrsCons(codes);
      CodesOfStrs(codes[1..]);
      ItoaReads(codes[0]);
      CodesCons(Strs(codes), codes[0], codes[1..]);
      assert [codes[0]] + codes[1..] == codes;
    }
  }

  lemma StrsCons(codes: seq<int>)
    requires codes != []
    ensures Strs(codes) != [] && Strs(codes)[0] == Itoa(codes[0]) && Strs(codes)[1..] == Strs(codes[1..])
  {
    hide Itoa;
  }

  lemma ItoaReads(n: int)
    requires IsInt64(n)
    ensures TrimSpace(Itoa(n)) == Itoa(n) && Itoa(n) != [] && ParseInt(Itoa(n)) == Some(n)
  {
    TrimNone(Itoa(n));
    hide TrimSpace;
    ParseItoa(n);
  }

  lemma CodesCons(pieces: seq<string>, c: int, rest: seq<int>)
    requires pieces != [] && TrimSpace(pieces[0]) != [] && ParseInt(TrimSpace(pieces[0])) == Some(c) && Codes(pieces[1..]) == Some(rest)
    ensures Codes(pieces) == Some([c] + rest)
  {
    hide TrimSpace, ParseInt;
  }

  // A printed list starts and ends in a character of a number.
  lemma {:induction false} PrintEnds(codes: seq<int>)
    requires codes != []
    ensures var s := Print(codes);
      |s| > 0 && (IsDigit(s[0]) || s[0] == '-') && (IsDigit(s[|s| - 1]) || s[|s| - 1] == '-')
  {
    if |codes| > 1 {
      assert Strs(codes)[1..] == Strs(codes[1..]);
      PrintEnds(codes[1..]);
    }
  }

  lemma SplitPrint(codes: seq<int>)
    requires codes != [] && forall i | 0 <= i < |codes| :: IsInt64(codes[i])
    ensures Codes(Split(Print(codes), ',')) == Some(codes)
  {
    SplitJoin(Strs(codes), ',');
    CodesOfStrs(codes);
  }

  // The pieces that are not blank, trimmed.
  function Entries(pieces: seq<string>): seq<string> {
    if pieces == [] then []
    else
      var p := TrimSpace(pieces[0]);
      if p == [] then Entries(pieces[1..]) else [p] + Entries(pieces[1..])
  }

  /** A list is accepted exactly when every piece that is not blank is an integer, and then gives
      those integers in order. */
  lemma {:induction false} CodesExact(pieces: seq<string>)
    ensures Codes(pieces).Some? <==> AreInts(Entries(pieces))
    ensures Codes(pieces).Some? ==> Reads(Entries(pieces), Codes(pieces).value)
  {
    if pieces != [] {
      CodesExact(pieces[1..]);
      hide TrimSpace, ParseInt, AreInts, Reads;
      var p := TrimSpace(pieces[0]);
      if p != [] {
        IntsCons(p, Entries(pieces[1..]));
        if ParseInt(p).Some? && Codes(pieces[1..]).Some? {
          ReadsCons(p, Entries(pieces[1..]), ParseInt(p).value, Codes(pieces[1..]).value);
        }
      }
    }
  }

  predicate AreInts(words: seq<string>) {
    forall i | 0 <= i < |words| :: ParseInt(words[i]).Some?
  }

  predicate Reads(words: seq<string>, codes: seq<int>) {
    |codes| == |words| && forall i | 0 <= i < |words| :: ParseInt(words[i]) == Some(codes[i])
  }

  lemma IntsCons(p: string, words: seq<string>)
    ensures AreInts([p] + words) <==> ParseInt(p).Some? && AreInts(words)
  {
    hide ParseInt;
    var all := [p] + words;
    assert all[0] == p && forall i | 0 <= i < |words| :: all[i + 1] == words[i];
    assert forall i | 1 <= i < |all| :: all[i] == words[i - 1];
  }

  lemma ReadsCons(p: string, words: seq<string>, n: int, codes: seq<int>)
    requires ParseInt(p) == Some(n) && Reads(words, codes)
    ensures Reads([p] + words, [n] + codes)
  {
    hide ParseInt;
  }

  /** A value that starts with a quote loses it and its last character, whatever that is, if
      anything is left; one that does not is only trimmed. */
  lemma UnquoteExact(x: string, last: char)
    requires !IsSpace(last)
    ensures x != [] ==> Unquote("\"" + x + [last]) == x
    ensures x != [] && !IsSpace(x[0]) && !IsSpace(x[|x| - 1]) && x[0] != '\"' ==> Unquote(x) == x
  {
    var quoted := "\"" + x + [last];
    TrimNone(quoted);
    assert quoted[1..|quoted| - 1] == x;
    hide TrimSpace;
    if x != [] && !IsSpace(x[0]) && !IsSpace(x[|x| - 1]) {
      TrimNone(x);
    }
  }

  // Printing then parsing without quotes is the identity on every list, the empty one included.
  lemma PlainRoundTrip(codes: seq<int>)
    requires forall i | 0 <= i < |codes| :: IsInt64(codes[i])
    ensures Parse(Print(codes)) == Some(codes)
  {
    if codes == [] {
      assert Split([], ',') == [[]];
    } else {
      PrintEnds(codes);
      TrimNone(Print(codes));
      SplitPrint(codes);
    }
  }

  /** With quotes it is the identity exactly on nonempty lists: the two characters of an empty
      quoted list are left in place and rejected. */
  lemma QuotedRoundTripIff(codes: seq<int>)
    requires forall i | 0 <= i < |codes| :: IsInt64(codes[i])
    ensures Parse("\"" + Print(codes) + "\"") == Some(codes) <==> codes != []
  {
    var quoted := "\"" + Print(codes) + "\"";
    TrimNone(quoted);
    if codes == [] {
      assert Print(codes) == [] && quoted == "\"\"" && Unquote(quoted) == quoted;
      SplitNone(quoted, ',');
      assert ParseDigits(quoted).None?;
      assert Codes([quoted]).None?;
    } else {
      PrintEnds(codes);
      assert quoted[1..|quoted| - 1] == Print(codes);
      SplitPrint(codes);
    }
  }
}
