/** Range requests: parsing the header, sorting and collapsing the ranges, and assembling the
    206 response (sections 2.1 and 4.1 of RFC 7233). */
module ByteRanges {
  import opened Words
  import opened Text

  const MAX_INT64 := 0x7FFF_FFFF_FFFF_FFFF

  // Both ends inclusive; start -1 means the last `end` bytes, end MAX_INT64 means to the end.
  datatype Range = Range(start: int, end: int)

  // A parse either works, is rejected, or indexes past the end of a slice.
  datatype Parsed<+T> = Ok(value: T) | Invalid | Panic

  // ---------- parsing ----------

  function ParseRange(s: string): Parsed<Range> {
    var parts := Split(s, '-');
    var start := if parts[0] == "" then Some(-1) else ParseInt(parts[0]);
    if start.None? then Invalid
    else if |parts| < 2 then Panic
    else
      var end := if parts[1] == "" then Some(MAX_INT64) else ParseInt(parts[1]);
      if end.None? then Invalid else Ok(Range(start.value, end.value))
  }

  function ParseRanges(pieces: seq<string>): Parsed<seq<Range>> {
    if pieces == [] then Ok([])
    else
      var first := ParseRange(pieces[0]);
      if !first.Ok? then (if first.Panic? then Panic else Invalid)
      else
        var rest := ParseRanges(pieces[1..]);
        if rest.Ok? then Ok([first.value] + rest.value) else rest
  }

  // The ranges of a header, before sorting; a unit other than bytes is only logged.
  function HeaderRanges(header: string): Parsed<seq<Range>> {
    var parts := Split(header, '=');
    if |parts| < 2 then Panic else ParseRanges(Split(parts[1], ','))
  }

  // ---------- sorting and collapsing ----------

  ghost predicate ByStart(s: seq<Range>) {
    forall i, j | 0 <= i < j < |s| :: s[i].start <= s[j].start
  }

  // Some outcome of sort.Slice by start, which need not be stable.
  ghost predicate SortOf(s: seq<Range>, rs: seq<Range>) {
    ByStart(s) && multiset(s) == multiset(rs)
  }

  // The ranges collapsed into `cur`, then those after it.
  function Collapse(cur: Range, rest: seq<Range>): (c: seq<Range>)
    ensures |c| >= 1
    decreases |rest|
  {
    if rest == [] then [cur]
    else
      var r := rest[0];
      if cur.end < r.start then [cur] + Collapse(r, rest[1..])
      else if cur.start <= r.start && cur.end >= r.end then Collapse(cur, rest[1..])
      else if cur.start <= r.start && cur.end < r.end then Collapse(cur.(end := r.end), rest[1..])
      else Collapse(cur, rest[1..])
  }

  function Collapsed(s: seq<Range>): seq<Range> {
    if |s| <= 1 then s else Collapse(s[0], s[1..])
  }

  method InsertionSort(rs: seq<Range>) returns (s: seq<Range>)
    ensures SortOf(s, rs)
  {
    s := [];
    for n := 0 to |rs|
      invariant SortOf(s, rs[..n])
    {
      var i := |s|;
      while i > 0 && s[i - 1].start > rs[n].start
        invariant 0 <= i <= |s| && forall j | i <= j < |s| :: s[j].start > rs[n].start
      {
        i := i - 1;
      }
      SpliceSort(s, rs[..n], i, rs[n]);
      assert rs[..n + 1] == rs[..n] + [rs[n]];
      s := s[..i] + [rs[n]] + s[i..];
    }
    assert rs[..|rs|] == rs;
  }

  lemma SpliceByStart(s: seq<Range>, i: nat, r: Range)
    requires ByStart(s) && i <= |s|
    requires (i > 0 ==> s[i - 1].start <= r.start) && (i < |s| ==> s[i].start >= r.start)
    ensures ByStart(s[..i] + [r] + s[i..])
  {
  }

  lemma SpliceSort(s: seq<Range>, rs: seq<Range>, i: nat, r: Range)
    requires SortOf(s, rs) && i <= |s|
    requires (i > 0 ==> s[i - 1].start <= r.start) && (i < |s| ==> s[i].start >= r.start)
    ensures SortOf(s[..i] + [r] + s[i..], rs + [r])
  {
    SpliceByStart(s, i, r);
    SpliceBag(s, i, r);
    hide ByStart;
  }

  lemma SpliceBag(s: seq<Range>, i: nat, r: Range)
    requires i <= |s|
    ensures multiset(s[..i] + [r] + s[i..]) == multiset(s) + multiset{r}
  {
    var a, b := s[..i], s[i..];
    assert s == a + b;
    assert multiset(a + [r]) == multiset(a) + multiset{r};
    BagShuffle(multiset(a), multiset{r}, multiset(b));
  }

  lemma BagShuffle(a: multiset<Range>, r: multiset<Range>, b: multiset<Range>)
    ensures a + r + b == (a + b) + r
  {
  }

  // The loop over the comma-separated ranges.
  method ParsePieces(pieces: seq<string>) returns (r: Parsed<seq<Range>>)
    ensures r == ParseRanges(pieces)
  {
    hide ParseRange;
    var byteRanges: seq<Range> := [];
    assert pieces[0..] == pieces;
    assert ParseRanges(pieces).Ok? ==> [] + ParseRanges(pieces).value == ParseRanges(pieces).value;
    for n := 0 to |pieces|
      invariant var rest := ParseRanges(pieces[n..]);
        ParseRanges(pieces) == if rest.Ok? then Ok(byteRanges + rest.value) else rest
    {
      var thisRange := ParseRange(pieces[n]);
      assert pieces[n..][1..] == pieces[n + 1..];
      if !thisRange.Ok? {
        return if thisRange.Panic? then Panic else Invalid;
      }
      var rest := ParseRanges(pieces[n + 1..]);
      if rest.Ok? {
        assert byteRanges + ([thisRange.value] + rest.value) == byteRanges + [thisRange.value] + rest.value;
      }
      byteRanges := byteRanges + [thisRange.value];
    }
    assert byteRanges + [] == byteRanges;
    r := Ok(byteRanges);
  }

  /** parseRangeHeader: parses in order, gives up on the first bad piece, and sorts and collapses
      when there is more than one range. */
  method ParseRangeHeader(header: string) returns (r: Parsed<seq<Range>>)
    ensures r.Panic? <==> HeaderRanges(header).Panic?
    ensures r.Invalid? <==> HeaderRanges(header).Invalid?
    ensures r.Ok? ==> exists s :: SortOf(s, HeaderRanges(header).value) && r.value == Collapsed(s)
  {
    var parts := Split(header, '=');
    if |parts| < 2 {
      return Panic;
    }
    var pieces := Split(parts[1], ',');
    var parsed := ParsePieces(pieces);
    if !parsed.Ok? {
      return parsed;
    }
    var byteRanges := parsed.value;
    if |byteRanges| <= 1 {
      assert SortOf(byteRanges, byteRanges) && byteRanges == Collapsed(byteRanges);
      return Ok(byteRanges);
    }
    var sorted := InsertionSort(byteRanges);
    assert |sorted| == |multiset(sorted)| == |byteRanges|;
    var collapsed := CollapseSorted(sorted);
    r := Ok(collapsed);
  }

  method CollapseSorted(byteRanges: seq<Range>) returns (collapsed: seq<Range>)
    requires |byteRanges| > 1
    ensures collapsed == Collapsed(byteRanges)
  {
    var j := 0;
    collapsed := [byteRanges[j]];
    for i := 1 to |byteRanges|
      invariant |collapsed| == j + 1
      invariant collapsed[..j] + Collapse(collapsed[j], byteRanges[i..]) == Collapsed(byteRanges)
    {
      assert byteRanges[i..][1..] == byteRanges[i + 1..];
      var cur, r := collapsed[j], byteRanges[i];
      if cur.end < r.start {
        assert collapsed[..j] + [cur] == collapsed;
        collapsed := collapsed + [r];
        j := j + 1;
        continue;
      }
      if cur.start <= r.start && cur.end >= r.end {
        continue;
      }
      if cur.start <= r.start && cur.end < r.end {
        collapsed := collapsed[j := cur.(end := r.end)];
        continue;
      }
    }
    assert collapsed == collapsed[..j] + [collapsed[j]];
  }

  // ---------- what collapsing means ----------

  predicate Contains(r: Range, p: int) {
    r.start <= p <= r.end
  }

  // Some range asks for position `p`.
  predicate Covers(rs: seq<Range>, p: int) {
    exists i :: 0 <= i < |rs| && Contains(rs[i], p)
  }

  // An explicit, nonempty range: 0 <= start <= end.
  predicate Explicit(rs: seq<Range>) {
    forall i | 0 <= i < |rs| :: 0 <= rs[i].start <= rs[i].end
  }

  // Sorted and pairwise disjoint.
  predicate Separated(rs: seq<Range>) {
    forall i, j | 0 <= i < j < |rs| :: rs[i].end < rs[j].start
  }

  lemma {:induction false} CoversCons(r: Range, rs: seq<Range>, p: int)
    ensures Covers([r] + rs, p) <==> Contains(r, p) || Covers(rs, p)
  {
    var all := [r] + rs;
    if Covers(rs, p) {
      var i :| 0 <= i < |rs| && Contains(rs[i], p);
      assert Contains(all[i + 1], p);
    }
    if Contains(r, p) {
      assert Contains(all[0], p);
    }
  }

  // Collapsing keeps the union, separates the ranges, and starts where it started.
  lemma {:induction false} CollapseMeaning(cur: Range, rest: seq<Range>)
    requires Explicit([cur] + rest) && ByStart([cur] + rest)
    ensures var c := Collapse(cur, rest);
      && Explicit(c) && Separated(c) && c[0].start == cur.start
      && (forall i | 0 <= i < |c| :: cur.start <= c[i].start)
      && forall p :: Covers(c, p) <==> Covers([cur] + rest, p)
    decreases |rest|
  {
    var all := [cur] + rest;
    assert all[0] == cur;
    if rest == [] {
      assert all == [cur];
    } else {
      var r, next := rest[0], Merged(cur, rest[0]);
      MergedTail(cur, rest);
      assert all[1] == r;
      CollapseMeaning(next, rest[1..]);
      assert rest == [r] + rest[1..];
      forall p ensures Covers(Collapse(cur, rest), p) <==> Covers(all, p) {
        CoversCons(cur, rest, p);
        CoversCons(r, rest[1..], p);
        CoversCons(next, rest[1..], p);
        if cur.end < r.start {
          CoversCons(cur, Collapse(r, rest[1..]), p);
        }
      }
    }
  }

  // The range being collapsed into once `r` has been looked at.
  function Merged(cur: Range, r: Range): Range {
    if cur.end < r.start then r else if cur.end < r.end then cur.(end := r.end) else cur
  }

  lemma MergedTail(cur: Range, rest: seq<Range>)
    requires rest != [] && Explicit([cur] + rest) && ByStart([cur] + rest)
    ensures Explicit([Merged(cur, rest[0])] + rest[1..]) && ByStart([Merged(cur, rest[0])] + rest[1..])
  {
    var all, tail := [cur] + rest, [Merged(cur, rest[0])] + rest[1..];
    assert all[0] == cur && all[1] == rest[0];
    forall i | 0 <= i < |tail| ensures 0 <= tail[i].start <= tail[i].end {
      assert i > 0 ==> tail[i] == all[i + 1];
    }
    forall i, j | 0 <= i < j < |tail| ensures tail[i].start <= tail[j].start {
      assert tail[j] == all[j + 1] && (i > 0 ==> tail[i] == all[i + 1]);
    }
  }

  // The union does not depend on the order the ranges came in.
  lemma CoversPermuted(s: seq<Range>, rs: seq<Range>, p: int)
    requires multiset(s) == multiset(rs)
    ensures Covers(s, p) <==> Covers(rs, p)
  {
    forall x ensures x in s <==> x in rs {
      assert x in s <==> x in multiset(s);
    }
    if Covers(s, p) {
      var i :| 0 <= i < |s| && Contains(s[i], p);
      assert s[i] in rs;
    }
    if Covers(rs, p) {
      var i :| 0 <= i < |rs| && Contains(rs[i], p);
      assert rs[i] in s;
    }
  }

  lemma ExplicitPermuted(s: seq<Range>, rs: seq<Range>)
    requires multiset(s) == multiset(rs) && Explicit(rs)
    ensures Explicit(s)
  {
    forall i | 0 <= i < |s| ensures 0 <= s[i].start <= s[i].end {
      assert s[i] in multiset(s);
    }
  }

  /** However equal starts are ordered, collapsing a list of explicit ranges yields sorted,
      pairwise disjoint ranges with the same union. */
  lemma CollapsedMeaning(rs: seq<Range>, s: seq<Range>)
    requires Explicit(rs) && SortOf(s, rs)
    ensures Explicit(Collapsed(s)) && Separated(Collapsed(s))
    ensures forall p :: Covers(Collapsed(s), p) <==> Covers(rs, p)
  {
    ExplicitPermuted(s, rs);
    forall p ensures Covers(s, p) <==> Covers(rs, p) {
      CoversPermuted(s, rs, p);
    }
    if |s| > 1 {
      assert s == [s[0]] + s[1..];
      CollapseMeaning(s[0], s[1..]);
    }
  }

  // ---------- the response ----------

  // A body is text with one character per byte.
  type Body = string

  // A range with its open or overlong end cut to the content, and a suffix range resolved.
  function Resolve(r: Range, total: int): Range {
    var end := if r.end == MAX_INT64 || r.end >= total then total - 1 else r.end;
    if r.start == -1 then Range(total - end, total - 1) else Range(r.start, end)
  }

  // body[start : end+1], which panics out of bounds.
  function Slice(body: Body, r: Range): Option<Body> {
    if 0 <= r.start <= r.end + 1 <= |body| then Some(body[r.start..r.end + 1]) else None
  }

  function RangeText(r: Range, total: int): string {
    "bytes " + Itoa(r.start) + "-" + Itoa(r.end) + "/" + Itoa(total)
  }

  function PartHeader(boundary: string, contentType: string, r: Range, total: int): string {
    ("\r\n--" + boundary + "\r\n") + ("Content-type: " + contentType + "\r\n") + ("Content-range: " + RangeText(r, total) + "\r\n\r\n")
  }

  // What a client reads in a Content-range value: first and last position, and the whole length.
  function ReadRange(text: string): Option<(int, int, int)> {
    var words := Split(text, ' ');
    if |words| != 2 || words[0] != "bytes" then None
    else
      var ends := Split(words[1], '-');
      if |ends| != 2 then None
      else
        var tail := Split(ends[1], '/');
        if |tail| != 2 then None
        else
          var a, b, n := ParseInt(ends[0]), ParseInt(tail[0]), ParseInt(tail[1]);
          if a.None? || b.None? || n.None? then None else Some((a.value, b.value, n.value))
  }

  // It reads what was written (section 4.2 of RFC 7233).
  lemma RangeReadsBack(r: Range, total: nat)
    requires 0 <= r.start && 0 <= r.end && IsInt64(r.start) && IsInt64(r.end) && IsInt64(total)
    ensures ReadRange(RangeText(r, total)) == Some((r.start, r.end, total as int))
    ensures '\n' !in RangeText(r, total)
  {
    NatText(r.start);
    NatText(r.end);
    NatText(total);
    hide Itoa, ParseInt, ReadRange;
    RangeParts(Itoa(r.start), Itoa(r.end), Itoa(total));
    ReadsParts(Itoa(r.start), Itoa(r.end), Itoa(total));
  }

  lemma RangeParts(a: string, b: string, n: string)
    ensures "bytes " + a + "-" + b + "/" + n == "bytes" + [' '] + (a + ['-'] + (b + ['/'] + n))
    ensures '\n' !in a && '\n' !in b && '\n' !in n ==> '\n' !in "bytes " + a + "-" + b + "/" + n
  {
  }

  predicate Plain(s: string) {
    ' ' !in s && '-' !in s && '/' !in s
  }

  lemma ReadsParts(a: string, b: string, n: string)
    requires Plain(a) && Plain(b) && Plain(n) && ParseInt(a).Some? && ParseInt(b).Some? && ParseInt(n).Some?
    ensures ReadRange("bytes" + [' '] + (a + ['-'] + (b + ['/'] + n))) == Some((ParseInt(a).value, ParseInt(b).value, ParseInt(n).value))
  {
    hide ParseInt;
    SplitTwo("bytes", a + ['-'] + (b + ['/'] + n), ' ');
    SplitTwo(a, b + ['/'] + n, '-');
    SplitTwo(b, n, '/');
    hide Split;
  }

  lemma SplitTwo(a: string, b: string, sep: char)
    requires sep !in a && sep !in b
    ensures Split(a + [sep] + b, sep) == [a, b]
  {
    SplitFirst(a, b, sep);
    SplitNone(b, sep);
  }

  lemma NatText(n: nat)
    requires IsInt64(n)
    ensures ParseInt(Itoa(n)) == Some(n as int)
    ensures ' ' !in Itoa(n) && '-' !in Itoa(n) && '/' !in Itoa(n) && '\n' !in Itoa(n)
  {
    ParseItoa(n);
    hide ParseInt, Itoa;
    NatHasNo(n, ' ');
    NatHasNo(n, '-');
    NatHasNo(n, '/');
    NatHasNo(n, '\n');
  }

  /** The header of a part, line by line: the boundary after an empty line, the content's own type,
      the range, and an empty line before the bytes. The closing line ends in two more dashes. */
  lemma PartLines(boundary: string, contentType: string, r: Range, total: nat)
    requires '\n' !in boundary && '\n' !in contentType
    requires 0 <= r.start && 0 <= r.end && IsInt64(r.start) && IsInt64(r.end) && IsInt64(total)
    ensures Split(PartHeader(boundary, contentType, r, total), '\n') ==
      ["\r", "--" + boundary + "\r", "Content-type: " + contentType + "\r", "Content-range: " + RangeText(r, total) + "\r", "\r", ""]
    ensures Split(Closing(Layout(total, boundary, contentType, true)), '\n') == ["\r", "--" + boundary + "--\r", ""]
  {
    RangeReadsBack(r, total);
    hide RangeText, ReadRange, Split;
    HeaderLines(boundary, contentType, RangeText(r, total));
    ClosingLines(boundary);
  }

  lemma HeaderLines(boundary: string, contentType: string, range: string)
    requires '\n' !in boundary && '\n' !in contentType && '\n' !in range
    ensures Split(("\r\n--" + boundary + "\r\n") + ("Content-type: " + contentType + "\r\n") + ("Content-range: " + range + "\r\n\r\n"), '\n') ==
      ["\r", "--" + boundary + "\r", "Content-type: " + contentType + "\r", "Content-range: " + range + "\r", "\r", ""]
  {
    hide Split;
    var b, c, g := "--" + boundary + "\r", "Content-type: " + contentType + "\r", "Content-range: " + range + "\r";
    assert "\r\n--" + boundary + "\r\n" == "\r" + ['\n'] + (b + ['\n']);
    assert "Content-type: " + contentType + "\r\n" == c + ['\n'];
    assert "Content-range: " + range + "\r\n\r\n" == g + ['\n'] + ("\r" + ['\n']);
    FiveLines("\r", b, c, g, "\r");
  }

  lemma FiveLines(a: string, b: string, c: string, d: string, e: string)
    requires '\n' !in a && '\n' !in b && '\n' !in c && '\n' !in d && '\n' !in e
    ensures Split((a + ['\n'] + (b + ['\n'])) + (c + ['\n']) + (d + ['\n'] + (e + ['\n'])), '\n') == [a, b, c, d, e, ""]
  {
    var r4 := e + ['\n'] + "";
    var r3 := d + ['\n'] + r4;
    var r2 := c + ['\n'] + r3;
    var r1 := b + ['\n'] + r2;
    assert (a + ['\n'] + (b + ['\n'])) + (c + ['\n']) + (d + ['\n'] + (e + ['\n'])) == a + ['\n'] + r1;
    SplitTwo(e, "", '\n');
    hide Split;
    SplitFirst(d, r4, '\n');
    SplitFirst(c, r3, '\n');
    SplitFirst(b, r2, '\n');
    SplitFirst(a, r1, '\n');
  }

  lemma ClosingLines(boundary: string)
    requires '\n' !in boundary
    ensures Split("\r\n--" + boundary + "--\r\n", '\n') == ["\r", "--" + boundary + "--\r", ""]
  {
    var e := "--" + boundary + "--\r";
    assert "\r\n--" + boundary + "--\r\n" == "\r" + ['\n'] + (e + ['\n'] + "");
    SplitTwo(e, "", '\n');
    hide Split;
    SplitFirst("\r", e + ['\n'] + "", '\n');
  }

  // What the response's layout needs besides the ranges.
  datatype Layout = Layout(total: int, boundary: string, contentType: string, multipart: bool)

  // One part: the bytes of a range, after a header if there are several parts.
  function Part(r: Range, body: Body, l: Layout): Option<Body> {
    var bytes := Slice(body, Resolve(r, l.total));
    if bytes.None? then None
    else Some(HeaderOf(r, l) + bytes.value)
  }

  function Parts(rs: seq<Range>, body: Body, l: Layout): Option<Body> {
    if rs == [] then Some("")
    else
      var first, rest := Part(rs[0], body, l), Parts(rs[1..], body, l);
      if first.None? || rest.None? then None else Some(first.value + rest.value)
  }

  function Closing(l: Layout): string {
    if l.multipart then "\r\n--" + l.boundary + "--\r\n" else ""
  }

  datatype Reply = Reply(code: int, body: Body, contentLength: string, contentType: string, contentRange: seq<string>)

  const PARTIAL_CONTENT := 206

  function ReplyType(l: Layout): string {
    if l.multipart then "multipart/byteranges; boundary=" + l.boundary else l.contentType
  }

  /** The respond hook: assembles the 206 body part by part; None is a slice out of bounds. */
  method Respond(rs: seq<Range>, body: Body, total: int, boundary: string, contentType: string)
    returns (reply: Option<Reply>)
    requires rs != []
    ensures var l := Layout(total, boundary, contentType, |rs| > 1);
      var parts := Parts(rs, body, l);
      && (reply.Some? <==> parts.Some?)
      && (reply.Some? ==>
            && reply.value.body == parts.value + Closing(l)
            && reply.value.code == PARTIAL_CONTENT
            && reply.value.contentLength == Itoa(|reply.value.body|)
            && reply.value.contentType == ReplyType(l)
            && reply.value.contentRange == if |rs| > 1 then [] else [RangeText(Resolve(rs[0], total), total)])
  {
    hide Part, Closing, RangeText, Resolve, Itoa, ReplyType;
    var l := Layout(total, boundary, contentType, |rs| > 1);
    var out: Body := [];
    var contentRange: seq<string> := [];
    ghost var whole := Parts(rs, body, l);
    assert rs[0..] == rs && (whole.Some? ==> [] + whole.value == whole.value);
    for i := 0 to |rs|
      invariant var rest := Parts(rs[i..], body, l); whole == if rest.None? then None else Some(out + rest.value)
      invariant contentRange == if l.multipart || i == 0 then [] else [RangeText(Resolve(rs[0], total), total)]
    {
      assert rs[i..][1..] == rs[i + 1..];
      var part := Part(rs[i], body, l);
      if part.None? {
        return None;
      }
      if !l.multipart {
        contentRange := contentRange + [RangeText(Resolve(rs[i], total), total)];
      }
      var rest := Parts(rs[i + 1..], body, l);
      if rest.Some? {
        assert out + (part.value + rest.value) == out + part.value + rest.value;
      }
      out := out + part.value;
    }
    assert whole == Some(out + []) && out + [] == out;
    out := out + Closing(l);
    reply := Some(Reply(PARTIAL_CONTENT, out, Itoa(|out|), ReplyType(l), contentRange));
  }

  // ---------- the payload ----------

  // The payload alone: the bytes of the ranges in order, without headers.
  function Payload(rs: seq<Range>, body: Body, total: int): Option<Body> {
    if rs == [] then Some([])
    else
      var first, rest := Slice(body, Resolve(rs[0], total)), Payload(rs[1..], body, total);
      if first.None? || rest.None? then None else Some(first.value + rest.value)
  }

  // a, a+1, ..., b
  function Interval(a: int, b: int): seq<int> {
    if a > b then [] else seq(b - a + 1, i => a + i)
  }

  // The positions a response sends, in order.
  function Positions(rs: seq<Range>, total: int): seq<int> {
    if rs == [] then [] else Interval(Resolve(rs[0], total).start, Resolve(rs[0], total).end) + Positions(rs[1..], total)
  }

  // The bytes at these positions.
  function Pick(body: Body, ps: seq<int>): Body
    requires forall i | 0 <= i < |ps| :: 0 <= ps[i] < |body|
  {
    seq(|ps|, i requires 0 <= i < |ps| => body[ps[i]])
  }

  // Every range starts within the content.
  predicate Satisfiable(rs: seq<Range>, total: int) {
    forall i | 0 <= i < |rs| :: rs[i].start < total
  }

  lemma PickConcat(body: Body, a: seq<int>, b: seq<int>)
    requires forall i | 0 <= i < |a| :: 0 <= a[i] < |body|
    requires forall i | 0 <= i < |b| :: 0 <= b[i] < |body|
    ensures forall i | 0 <= i < |a + b| :: 0 <= (a + b)[i] < |body|
    ensures Pick(body, a + b) == Pick(body, a) + Pick(body, b)
  {
  }

  lemma {:induction false} PayloadPicks(rs: seq<Range>, body: Body)
    requires Explicit(rs) && Satisfiable(rs, |body|)
    ensures forall i | 0 <= i < |Positions(rs, |body|)| :: 0 <= Positions(rs, |body|)[i] < |body|
    ensures Payload(rs, body, |body|) == Some(Pick(body, Positions(rs, |body|)))
  {
    if rs == [] {
      assert Pick(body, []) == [];
    } else {
      PayloadPicks(rs[1..], body);
      var r := Resolve(rs[0], |body|);
      assert 0 <= r.start <= r.end < |body|;
      var here := Interval(r.start, r.end);
      assert body[r.start..r.end + 1] == Pick(body, here);
      PickConcat(body, here, Positions(rs[1..], |body|));
    }
  }

  predicate Increasing(ps: seq<int>) {
    forall i, j | 0 <= i < j < |ps| :: ps[i] < ps[j]
  }

  lemma IntervalMembers(a: int, b: int)
    ensures Increasing(Interval(a, b)) && forall p :: p in Interval(a, b) <==> a <= p <= b
  {
    forall p | a <= p <= b ensures p in Interval(a, b) {
      assert Interval(a, b)[p - a] == p;
    }
  }

  lemma ConcatIncreasing(a: seq<int>, b: seq<int>, bound: int)
    requires Increasing(a) && Increasing(b)
    requires (forall i | 0 <= i < |a| :: a[i] <= bound) && forall j | 0 <= j < |b| :: bound < b[j]
    ensures Increasing(a + b)
  {
    var c := a + b;
    forall i, j | 0 <= i < j < |c| ensures c[i] < c[j] {
      assert c[i] == if i < |a| then a[i] else b[i - |a|];
      assert c[j] == if j < |a| then a[j] else b[j - |a|];
    }
  }

  // Separated ranges send each covered position once, in increasing order.
  lemma {:induction false} PositionsIncrease(rs: seq<Range>, total: int)
    requires Explicit(rs) && Separated(rs) && Satisfiable(rs, total) && total <= MAX_INT64
    ensures Increasing(Positions(rs, total))
    ensures forall p :: p in Positions(rs, total) <==> p < total && Covers(rs, p)
  {
    if rs == [] {
      assert Positions(rs, total) == [];
    } else {
      var r, rest := Resolve(rs[0], total), rs[1..];
      var here, later := Interval(r.start, r.end), Positions(rest, total);
      TailRanges(rs, total);
      PositionsIncrease(rest, total);
      IntervalMembers(r.start, r.end);
      assert Positions(rs, total) == here + later && r.end <= rs[0].end;
      hide Positions, Interval, Increasing, Separated, Explicit, Satisfiable;
      forall i | 0 <= i < |here| ensures here[i] <= r.end {
        assert here[i] in here;
      }
      forall j | 0 <= j < |later| ensures r.end < later[j] {
        assert later[j] in later;
        CoveredLater(rs, later[j]);
      }
      ConcatIncreasing(here, later, r.end);
      forall p ensures p in here + later <==> p < total && Covers(rs, p) {
        FirstCovers(rs, total, p);
      }
    }
  }

  lemma TailRanges(rs: seq<Range>, total: int)
    requires rs != [] && Explicit(rs) && Separated(rs) && Satisfiable(rs, total)
    ensures Explicit(rs[1..]) && Separated(rs[1..]) && Satisfiable(rs[1..], total)
  {
    var rest := rs[1..];
    assert forall i | 0 <= i < |rest| :: rest[i] == rs[i + 1];
  }

  // A covered position within the content is sent with the first range or covered by the others.
  lemma FirstCovers(rs: seq<Range>, total: int, p: int)
    requires rs != [] && Explicit(rs) && total <= MAX_INT64
    ensures var r := Resolve(rs[0], total);
      p < total && Covers(rs, p) <==> r.start <= p <= r.end || (p < total && Covers(rs[1..], p))
  {
    assert rs == [rs[0]] + rs[1..];
    CoversCons(rs[0], rs[1..], p);
    hide Covers;
  }

  // What the ranges after the first one cover comes after it.
  lemma CoveredLater(rs: seq<Range>, p: int)
    requires rs != [] && Separated(rs) && Covers(rs[1..], p)
    ensures rs[0].end < p
  {
  }

  // Collapsing makes up no new starts.
  lemma {:induction false} CollapseStarts(cur: Range, rest: seq<Range>, total: int)
    requires cur.start < total && Satisfiable(rest, total)
    ensures Satisfiable(Collapse(cur, rest), total)
    decreases |rest|
  {
    if rest != [] {
      var r := rest[0];
      CollapseStarts(r, rest[1..], total);
      CollapseStarts(cur, rest[1..], total);
      CollapseStarts(cur.(end := r.end), rest[1..], total);
    }
  }

  lemma CollapsedSatisfiable(rs: seq<Range>, s: seq<Range>, total: int)
    requires Satisfiable(rs, total) && multiset(s) == multiset(rs)
    ensures Satisfiable(Collapsed(s), total)
  {
    forall i | 0 <= i < |s| ensures s[i].start < total {
      assert s[i] in multiset(s);
    }
    if |s| > 1 {
      CollapseStarts(s[0], s[1..], total);
    }
  }

  /** For every list of explicit satisfiable ranges, however it is sorted: no slice is out of
      bounds, and the payload is the requested bytes of the content, each position once and in
      increasing order. */
  lemma PayloadIsRequested(rs: seq<Range>, s: seq<Range>, body: Body)
    requires Explicit(rs) && Satisfiable(rs, |body|) && SortOf(s, rs) && |body| <= MAX_INT64
    ensures var c := Collapsed(s);
      var ps := Positions(c, |body|);
      && (forall i | 0 <= i < |ps| :: 0 <= ps[i] < |body|)
      && Payload(c, body, |body|) == Some(Pick(body, ps))
      && Increasing(ps)
      && (forall p :: p in ps <==> p < |body| && Covers(rs, p))
  {
    CollapsedMeaning(rs, s);
    CollapsedSatisfiable(rs, s, |body|);
    PayloadPicks(Collapsed(s), body);
    PositionsIncrease(Collapsed(s), |body|);
  }

  // The header before one part's bytes.
  function HeaderOf(r: Range, l: Layout): string {
    if l.multipart then PartHeader(l.boundary, l.contentType, Resolve(r, l.total), l.total) else ""
  }

  /** What a client reads of a body laid out for these ranges: it checks each part's header, with
      the range in its Content-range line, takes as many bytes as the range spans, and expects
      nothing but the closing line after the last part. */
  function ReadParts(rs: seq<Range>, text: Body, l: Layout): Option<Body> {
    if rs == [] then (if text == Closing(l) then Some([]) else None)
    else
      var head, r := HeaderOf(rs[0], l), Resolve(rs[0], l.total);
      var n := r.end + 1 - r.start;
      if !(head <= text) || n < 0 || |text| < |head| + n then None
      else
        var rest := ReadParts(rs[1..], text[|head| + n..], l);
        if rest.None? then None else Some(text[|head|..|head| + n] + rest.value)
  }

  // The assembled body, headers and closing line included, is read back as exactly the payload.
  lemma {:induction false} BodyCarriesPayload(rs: seq<Range>, body: Body, l: Layout)
    requires Parts(rs, body, l).Some?
    ensures Payload(rs, body, l.total).Some?
    ensures ReadParts(rs, Parts(rs, body, l).value + Closing(l), l) == Payload(rs, body, l.total)
  {
    hide Resolve, PartHeader, Closing;
    if rs == [] {
      assert "" + Closing(l) == Closing(l);
    } else {
      BodyCarriesPayload(rs[1..], body, l);
      var text := Parts(rs, body, l).value + Closing(l);
      var head, bytes := HeaderOf(rs[0], l), Slice(body, Resolve(rs[0], l.total)).value;
      var rest := Parts(rs[1..], body, l).value + Closing(l);
      assert text == head + bytes + rest;
      assert head <= text && text[|head|..|head| + |bytes|] == bytes && text[|head| + |bytes|..] == rest;
    }
  }

  // ---------- when slices are in bounds ----------

  /** With explicit ranges no slice is out of bounds exactly when no range starts after the end
      of the content. */
  lemma {:induction false} InBoundsIff(rs: seq<Range>, body: Body, l: Layout)
    requires Explicit(rs) && l.total == |body|
    ensures Parts(rs, body, l).Some? <==> forall i | 0 <= i < |rs| :: rs[i].start <= |body|
  {
    if rs != [] {
      InBoundsIff(rs[1..], body, l);
      assert Part(rs[0], body, l).Some? <==> rs[0].start <= |body|;
      assert rs == [rs[0]] + rs[1..];
    }
  }

  /** The whole response: for every list of explicit satisfiable ranges, however sorted, the 206
      body is assembled without a panic, and a client that checks the part headers reads the
      requested bytes, each position once and in increasing order. */
  lemma ServedExactly(rs: seq<Range>, s: seq<Range>, body: Body, l: Layout)
    requires Explicit(rs) && Satisfiable(rs, |body|) && SortOf(s, rs) && l.total == |body| <= MAX_INT64
    ensures var c := Collapsed(s);
      var ps := Positions(c, |body|);
      && Parts(c, body, l).Some?
      && (forall i | 0 <= i < |ps| :: 0 <= ps[i] < |body|)
      && ReadParts(c, Parts(c, body, l).value + Closing(l), l) == Some(Pick(body, ps))
      && Increasing(ps)
      && (forall p :: p in ps <==> p < |body| && Covers(rs, p))
  {
    hide Closing, Parts, ReadParts, Positions, Payload, Collapsed;
    CollapsedMeaning(rs, s);
    CollapsedSatisfiable(rs, s, |body|);
    PayloadIsRequested(rs, s, body);
    InBoundsIff(Collapsed(s), body, l);
    BodyCarriesPayload(Collapsed(s), body, l);
  }

  // The last `n` bytes of a content, or all of it.
  function Suffix(body: Body, n: nat): Body {
    if n <= |body| then body[|body| - n..] else body
  }

  /** A single suffix range sends the last `n` bytes of a nonempty content exactly when `n` is
      less than its length: from there on the first byte is lost. */
  lemma SuffixServedIff(n: nat, body: Body)
    requires 0 < |body| <= MAX_INT64
    ensures (Slice(body, Resolve(Range(-1, n), |body|)) == Some(Suffix(body, n))) <==> n < |body|
  {
    var sent := Slice(body, Resolve(Range(-1, n), |body|));
    if n >= |body| {
      assert sent == Some(body[1..|body|]) && |Suffix(body, n)| == |body|;
    } else {
      assert body[|body| - n..|body|] == body[|body| - n..];
    }
  }

  // ---------- from the header text ----------

  // A range as a client writes it.
  function RangeSpec(r: Range): string {
    Itoa(r.start) + "-" + (if r.end == MAX_INT64 then "" else Itoa(r.end))
  }

  function Specs(rs: seq<Range>): seq<string> {
    seq(|rs|, i requires 0 <= i < |rs| => RangeSpec(rs[i]))
  }

  function Header(rs: seq<Range>): string {
    "bytes=" + Join(Specs(rs), ',')
  }

  lemma ParseSpec(r: Range)
    requires 0 <= r.start <= r.end <= MAX_INT64
    ensures ParseRange(RangeSpec(r)) == Ok(r)
    ensures ',' !in RangeSpec(r) && '=' !in RangeSpec(r)
  {
    var a, b := Itoa(r.start), if r.end == MAX_INT64 then "" else Itoa(r.end);
    NatHasNo(r.start, '-');
    NatHasNo(r.end, '-');
    NatHasNo(r.start, ',');
    NatHasNo(r.end, ',');
    NatHasNo(r.start, '=');
    NatHasNo(r.end, '=');
    assert RangeSpec(r) == a + ['-'] + b;
    SplitFirst(a, b, '-');
    SplitNone(b, '-');
    ParseItoa(r.start);
    ParseItoa(r.end);
  }

  // A suffix is written without a start.
  lemma ParseSuffix(n: nat)
    requires n <= MAX_INT64
    ensures ParseRange("-" + Itoa(n)) == Ok(Range(-1, n))
  {
    NatHasNo(n, '-');
    assert "-" + Itoa(n) == "" + ['-'] + Itoa(n);
    SplitFirst("", Itoa(n), '-');
    SplitNone(Itoa(n), '-');
    ParseItoa(n);
  }

  /** A piece without a dash is read as a start, and panics if that is empty or a number; a header
      without an equals sign panics. */
  lemma PanicsWithout(s: string)
    ensures '-' !in s ==> ParseRange(s) == if s == "" || ParseInt(s).Some? then Panic else Invalid
    ensures '=' !in s ==> HeaderRanges(s) == Panic
  {
    hide ParseInt, ParseRanges;
    if '-' !in s {
      SplitNone(s, '-');
    }
    if '=' !in s {
      SplitNone(s, '=');
    }
  }

  lemma {:induction false} ParseSpecs(rs: seq<Range>)
    requires Explicit(rs) && forall i | 0 <= i < |rs| :: rs[i].end <= MAX_INT64
    ensures ParseRanges(Specs(rs)) == Ok(rs)
  {
    if rs != [] {
      hide ParseRange, ParseRanges, RangeSpec, Specs;
      ParseSpec(rs[0]);
      ParseSpecs(rs[1..]);
      var specs := Specs(rs);
      SpecsCons(rs);
      ParseCons(specs, rs[0], rs[1..]);
      assert [rs[0]] + rs[1..] == rs;
    }
  }

  lemma SpecsCons(rs: seq<Range>)
    requires rs != []
    ensures Specs(rs) != [] && Specs(rs)[0] == RangeSpec(rs[0]) && Specs(rs)[1..] == Specs(rs[1..])
  {
  }

  lemma ParseCons(pieces: seq<string>, r: Range, rest: seq<Range>)
    requires pieces != [] && ParseRange(pieces[0]) == Ok(r) && ParseRanges(pieces[1..]) == Ok(rest)
    ensures ParseRanges(pieces) == Ok([r] + rest)
  {
  }

  lemma {:induction false} JoinHasNo(ss: seq<string>, sep: char, c: char)
    requires c != sep && forall i | 0 <= i < |ss| :: c !in ss[i]
    ensures c !in Join(ss, sep)
  {
    if |ss| > 1 {
      JoinHasNo(ss[1..], sep, c);
    }
  }

  // Writing explicit ranges into a header and parsing it gives the same ranges.
  lemma HeaderRoundTrip(rs: seq<Range>)
    requires rs != [] && Explicit(rs) && forall i | 0 <= i < |rs| :: rs[i].end <= MAX_INT64
    ensures HeaderRanges(Header(rs)) == Ok(rs)
  {
    var specs := Specs(rs);
    forall i | 0 <= i < |specs| ensures ',' !in specs[i] && '=' !in specs[i] {
      ParseSpec(rs[i]);
    }
    hide RangeSpec, ParseRange;
    JoinHasNo(specs, ',', '=');
    assert Header(rs) == "bytes" + ['='] + Join(specs, ',');
    SplitFirst("bytes", Join(specs, ','), '=');
    SplitNone(Join(specs, ','), '=');
    SplitJoin(specs, ',');
    ParseSpecs(rs);
  }

  // ---------- from header to response ----------

  // What a request with a Range header gets: the whole content, a part of it, or a panic.
  datatype Served = Whole | Partial(reply: Reply) | Panicked

  // The positions asked for, in increasing order and each once.
  ghost predicate Requested(rs: seq<Range>, total: int, ps: seq<int>) {
    && (forall i | 0 <= i < |ps| :: 0 <= ps[i] < total)
    && Increasing(ps)
    && (forall p :: p in ps <==> p < total && Covers(rs, p))
  }

  /** The response is laid out for the collapsed ranges, and a client that checks its part headers
      reads exactly the bytes asked for; it says how long it is, and which range it is when there
      is only one. */
  ghost predicate Delivers(rs: seq<Range>, body: Body, boundary: string, contentType: string, reply: Reply) {
    exists s: seq<Range>, ps: seq<int> ::
      var c := Collapsed(s);
      var l := Layout(|body|, boundary, contentType, |c| > 1);
      && SortOf(s, rs) && c != [] && Requested(rs, |body|, ps)
      && ReadParts(c, reply.body, l) == Some(Pick(body, ps))
      && reply.code == 206 && reply.contentLength == Itoa(|reply.body|) && reply.contentType == ReplyType(l)
      && reply.contentRange == if |c| > 1 then [] else [RangeText(Resolve(c[0], |body|), |body|)]
  }

  /** The whole path of a range request for a content of known length: a header that does not
      parse gets the whole content, and explicit satisfiable ranges get exactly their bytes. */
  method ServeRanges(header: string, body: Body, boundary: string, contentType: string) returns (r: Served)
    requires |body| <= MAX_INT64
    ensures r.Whole? <==> HeaderRanges(header).Invalid? || HeaderRanges(header) == Ok([])
    ensures HeaderRanges(header).Panic? ==> r.Panicked?
    ensures forall rs | HeaderRanges(header) == Ok(rs) && rs != [] && Explicit(rs) && Satisfiable(rs, |body|) ::
      r.Partial? && Delivers(rs, body, boundary, contentType, r.reply)
  {
    hide HeaderRanges, Collapsed, Parts, ReadParts, Delivers, Positions, Closing, RangeText, Resolve, Itoa, ReplyType;
    var parsed := ParseRangeHeader(header);
    if !parsed.Ok? {
      return if parsed.Panic? then Panicked else Whole;
    }
    var c := parsed.value;
    ghost var s :| SortOf(s, HeaderRanges(header).value) && c == Collapsed(s);
    CollapsedEmpty(s, HeaderRanges(header).value);
    if |c| == 0 {
      return Whole;
    }
    var reply := Respond(c, body, |body|, boundary, contentType);
    r := if reply.Some? then Partial(reply.value) else Panicked;
    forall rs | HeaderRanges(header) == Ok(rs) && rs != [] && Explicit(rs) && Satisfiable(rs, |body|)
      ensures r.Partial? && Delivers(rs, body, boundary, contentType, r.reply)
    {
      var l := Layout(|body|, boundary, contentType, |c| > 1);
      ServedExactly(rs, s, body, l);
      DeliversParts(rs, s, body, l, reply.value);
    }
  }

  lemma CollapsedEmpty(s: seq<Range>, rs: seq<Range>)
    requires SortOf(s, rs)
    ensures Collapsed(s) == [] <==> rs == []
  {
    assert |multiset(s)| == |s| && |multiset(rs)| == |rs|;
  }

  lemma DeliversParts(rs: seq<Range>, s: seq<Range>, body: Body, l: Layout, reply: Reply)
    requires Explicit(rs) && Satisfiable(rs, |body|) && SortOf(s, rs) && l.total == |body| <= MAX_INT64
    requires Collapsed(s) != [] && l.multipart == (|Collapsed(s)| > 1)
    requires Parts(Collapsed(s), body, l).Some? && reply.body == Parts(Collapsed(s), body, l).value + Closing(l)
    requires reply.code == PARTIAL_CONTENT && reply.contentLength == Itoa(|reply.body|) && reply.contentType == ReplyType(l)
    requires reply.contentRange == if |Collapsed(s)| > 1 then [] else [RangeText(Resolve(Collapsed(s)[0], |body|), |body|)]
    ensures Delivers(rs, body, l.boundary, l.contentType, reply)
  {
    hide Collapsed, Parts, ReadParts, Positions, Closing, RangeText, Resolve, Itoa, ReplyType, Covers, SortOf;
    ServedExactly(rs, s, body, l);
    var c := Collapsed(s);
    assert l == Layout(|body|, l.boundary, l.contentType, |c| > 1);
    assert Requested(rs, |body|, Positions(c, |body|));
  }
}
