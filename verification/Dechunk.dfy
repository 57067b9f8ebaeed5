/** Chunked transfer decoding in the window shell (section 7.1 of RFC 9112).
    The body is text; its chunk sizes count the bytes of its UTF-8 form. */
module Dechunk {
  import opened Options
  import opened Numbers
  import opened Text

  const CRLF := "\r\n"

  // ---- Bytes of a text ----

  /** Bytes of one character in UTF-8. */
  function Width(c: char): (n: nat)
    ensures 1 <= n <= 4
  {
    var u := c as int;
    if u < 0x80 then 1 else if u < 0x800 then 2 else if u < 0x10000 then 3 else 4
  }

  /** How many code points `k` bytes can tell apart: 7 bits in one byte, 6 in each
      further byte and one less in the first for each of them. */
  function Capacity(k: nat): nat {
    if k <= 1 then 128 else if k == 2 then 16 * 128 else 32 * Capacity(k - 1)
  }

  /** A character takes the fewest bytes that can hold its code point. */
  lemma WidthIsLeast(c: char, k: nat)
    ensures c as int < Capacity(Width(c))
    ensures 1 <= k < Width(c) ==> Capacity(k) <= c as int
  {
    assert Capacity(2) == 2048 && Capacity(3) == 65536 && Capacity(4) == 2097152;
    assert c as int < 0x11_0000;
  }

  function ByteLen(s: string): (n: nat)
    ensures n >= |s|
  {
    if s == "" then 0 else Width(s[0]) + ByteLen(s[1..])
  }

  /** How many leading characters make up exactly `n` bytes; None inside a character. */
  function CharsIn(s: string, n: nat): (r: Option<nat>)
    ensures r.Some? ==> r.value <= |s|
  {
    if n == 0 then Some(0)
    else if s == "" || Width(s[0]) > n then None
    else
      var rest := CharsIn(s[1..], n - Width(s[0]));
      if rest.Some? then Some(rest.value + 1) else None
  }

  lemma {:induction false} ByteLenConcat(a: string, b: string)
    ensures ByteLen(a + b) == ByteLen(a) + ByteLen(b)
  {
    if a == "" {
      assert a + b == b;
    } else {
      assert (a + b)[1..] == a[1..] + b;
      ByteLenConcat(a[1..], b);
    }
  }

  lemma {:induction false} CharsInWhole(a: string, b: string)
    ensures CharsIn(a + b, ByteLen(a)) == Some(|a|)
  {
    if a != "" {
      assert (a + b)[1..] == a[1..] + b;
      CharsInWhole(a[1..], b);
    }
  }

  /** The offsets that can be cut at are those of whole prefixes. */
  lemma {:induction false} CharsInIff(s: string, n: nat)
    ensures CharsIn(s, n).Some? <==> exists k :: 0 <= k <= |s| && ByteLen(s[..k]) == n
    ensures CharsIn(s, n).Some? ==> ByteLen(s[..CharsIn(s, n).value]) == n
  {
    if k :| 0 <= k <= |s| && ByteLen(s[..k]) == n {
      CharsInWhole(s[..k], s[k..]);
      assert s == s[..k] + s[k..];
    }
    if CharsIn(s, n).Some? && n > 0 {
      CharsInIff(s[1..], n - Width(s[0]));
      var k := CharsIn(s, n).value;
      assert s[..k][1..] == s[1..][..k - 1];
    }
  }

  // ---- The loop ----

  predicate LineEndsAt(s: string, i: nat) {
    i + 1 < |s| && s[i] == '\r' && s[i + 1] == '\n'
  }

  /** Position of the first line end from `i` on, or |s| if there is none. */
  function LineEnd(s: string, i: nat): (k: nat)
    requires i <= |s|
    ensures i <= k <= |s| && (k < |s| ==> LineEndsAt(s, k))
    decreases |s| - i
  {
    if i == |s| || LineEndsAt(s, i) then i else LineEnd(s, i + 1)
  }

  /** One round takes a chunk, leaves the loop, or panics on a size that ends
      inside a character. */
  datatype Round = Took(data: string, tail: string) | Stops | Panics

  function TakeChunk(len: Option<nat>, remainder: string): (r: Round)
    ensures r.Took? ==> |r.tail| <= |remainder|
  {
    if len.None? || len.value == 0 || ByteLen(remainder) < len.value then Stops
    else
      var n := CharsIn(remainder, len.value);
      if n.None? then Panics else Took(remainder[..n.value], remainder[n.value..])
  }

  function NextChunk(s: string): (r: Round)
    ensures r.Took? ==> |r.tail| < |s|
  {
    var k := LineEnd(s, 0);
    if k == |s| then Stops else TakeChunk(Parse(Trim(s[..k]), 16), s[k + 2..])
  }

  function Prefixed(data: string, rest: Option<string>): Option<string> {
    if rest.None? then None else Some(data + rest.value)
  }

  /** What the loop returns, None if it panics. */
  function Decoded(s: string): Option<string>
    decreases |s|
  {
    var c := NextChunk(s);
    if c.Panics? then None
    else if c.Stops? then Some("")
    else if LineEndsAt(c.tail, 0) then Prefixed(c.data, Decoded(c.tail[2..]))
    else Some(c.data)
  }

  method Decode(body: string) returns (r: Option<string>)
    ensures r == Decoded(body)
  {
    var out, rest := "", body;
    EmptyPrefix(out, Decoded(body));
    while true
      invariant Decoded(body) == Prefixed(out, Decoded(rest))
      decreases |rest|
    {
      assert out + "" == out;
      var k := LineEnd(rest, 0);
      if k == |rest| { return Some(out); }
      var len, remainder := Parse(Trim(rest[..k]), 16), rest[k + 2..];
      if len.None? || len.value == 0 || ByteLen(remainder) < len.value { return Some(out); }
      var n := CharsIn(remainder, len.value);
      if n.None? { return None; }
      AppendChunk(out, rest);
      out := out + remainder[..n.value];
      rest := remainder[n.value..];
      if !LineEndsAt(rest, 0) { return Some(out); }
      rest := rest[2..];
    }
  }

  lemma EmptyPrefix(out: string, rest: Option<string>)
    requires out == ""
    ensures Prefixed(out, rest) == rest
  {
    if rest.Some? { assert out + rest.value == rest.value; }
  }

  lemma AppendChunk(out: string, s: string)
    requires NextChunk(s).Took?
    ensures var c := NextChunk(s);
            Prefixed(out, Decoded(s)) ==
            if LineEndsAt(c.tail, 0) then Prefixed(out + c.data, Decoded(c.tail[2..])) else Some(out + c.data)
  {
    var c := NextChunk(s);
    assert Decoded(s) == if LineEndsAt(c.tail, 0) then Prefixed(c.data, Decoded(c.tail[2..])) else Some(c.data);
    if LineEndsAt(c.tail, 0) && Decoded(c.tail[2..]).Some? {
      var more := Decoded(c.tail[2..]).value;
      assert out + (c.data + more) == (out + c.data) + more;
    }
  }

  // ---- Encoding ----

  datatype Chunk = Chunk(size: string, data: string)

  predicate NoBreak(s: string) {
    forall i :: 0 <= i < |s| ==> !LineEndsAt(s, i)
  }

  /** Any one-line spelling of the byte count will do: either case, leading zeros,
      surrounding blanks. Chunk extensions are not part of it. */
  predicate GoodChunk(c: Chunk) {
    NoBreak(c.size) && Parse(Trim(c.size), 16) == Some(ByteLen(c.data)) && c.data != ""
  }

  predicate GoodChunks(cs: seq<Chunk>) {
    forall c :: c in cs ==> GoodChunk(c)
  }

  const LAST_CHUNK := "0\r\n\r\n"

  /** The chunks, each with its size line and line end, and then `tail`. */
  function Framed(cs: seq<Chunk>, tail: string): string {
    if cs == [] then tail
    else cs[0].size + CRLF + cs[0].data + CRLF + Framed(cs[1..], tail)
  }

  function Encoded(cs: seq<Chunk>): string { Framed(cs, LAST_CHUNK) }

  function Payload(cs: seq<Chunk>): string {
    if cs == [] then "" else cs[0].data + Payload(cs[1..])
  }

  /** A chunk's size line and data. */
  function Need(c: Chunk): nat { |c.size| + 2 + |c.data| }

  /** How many leading chunks have their size line and data within the first `k` characters. */
  function Whole(cs: seq<Chunk>, k: nat): (n: nat)
    ensures n <= |cs|
  {
    if cs == [] then 0
    else
      var need := Need(cs[0]);
      if k < need then 0
      else 1 + Whole(cs[1..], if k < need + 2 then 0 else k - need - 2)
  }

  // ---- One chunk ----

  lemma {:induction false} LineEndIs(s: string, i: nat, n: nat)
    requires i <= n <= |s| && (n == |s| || LineEndsAt(s, n))
    requires forall j :: i <= j < n ==> !LineEndsAt(s, j)
    ensures LineEnd(s, i) == n
    decreases n - i
  {
    if i < n { LineEndIs(s, i + 1, n); }
  }

  /** A size line followed by a line end. */
  lemma SizeLineEnds(size: string, rest: string)
    requires NoBreak(size)
    ensures LineEnd(size + CRLF + rest, 0) == |size|
  {
    var s := size + CRLF + rest;
    forall j | 0 <= j < |size| ensures !LineEndsAt(s, j) {
      assert s[j] == size[j] && !LineEndsAt(size, j);
      assert j + 1 < |size| ==> s[j + 1] == size[j + 1];
    }
    LineEndIs(s, 0, |size|);
  }

  lemma RoundOn(size: string, rest: string)
    requires NoBreak(size)
    ensures NextChunk(size + CRLF + rest) == TakeChunk(Parse(Trim(size), 16), rest)
  {
    var s := size + CRLF + rest;
    SizeLineEnds(size, rest);
    assert s[..|size|] == size && s[|size| + 2..] == rest;
  }

  /** A size line followed by the beginning of its data, or by all of it and more. */
  lemma DecodeOne(c: Chunk, after: string, rest: string, n: nat)
    requires GoodChunk(c) && n <= |c.data + after| && rest == (c.data + after)[..n]
    ensures NextChunk(c.size + CRLF + rest) ==
            if n < |c.data| then Stops else Took(c.data, after[..n - |c.data|])
  {
    RoundOn(c.size, rest);
    if n < |c.data| {
      assert c.data == rest + c.data[n..];
      ByteLenConcat(rest, c.data[n..]);
    } else {
      assert rest == c.data + after[..n - |c.data|];
      ByteLenConcat(c.data, after[..n - |c.data|]);
      CharsInWhole(c.data, after[..n - |c.data|]);
    }
  }

  /** A size line cut short of its line end. */
  lemma DecodeNothing(size: string, k: nat)
    requires NoBreak(size) && k <= |size| + 1
    ensures NextChunk((size + "\r")[..k]) == Stops
  {
    var s := (size + "\r")[..k];
    forall j | 0 <= j < k ensures !LineEndsAt(s, j) {
      if j + 1 < k { assert s[j] == size[j] && !LineEndsAt(size, j); }
    }
    LineEndIs(s, 0, k);
  }

  lemma LastChunkIsEmpty(k: nat)
    requires k <= |LAST_CHUNK|
    ensures NextChunk(LAST_CHUNK[..k]) == Stops
  {
    var s := LAST_CHUNK[..k];
    if k <= 2 {
      assert s == ("0" + "\r")[..k];
      DecodeNothing("0", k);
    } else {
      assert s == "0" + CRLF + s[3..];
      SizeLineEnds("0", s[3..]);
      assert s[..1] == "0";
      TrimmedIff("0");
      assert AllDigits("0", 16) && "0"[..0] == [];
      assert Parse("0", 16) == Some(0);
    }
  }

  lemma CutInHeader(size: string, body: string, k: nat)
    requires k < |size| + 2
    ensures (size + CRLF + body)[..k] == (size + "\r")[..k]
  {
  }

  lemma CutInBody(size: string, body: string, k: nat)
    requires |size| + 2 <= k <= |size| + 2 + |body|
    ensures (size + CRLF + body)[..k] == size + CRLF + body[..k - |size| - 2]
  {
  }

  lemma CutEarly(c: Chunk, body: string, k: nat)
    requires GoodChunk(c) && k < |c.size| + 2
    ensures NextChunk((c.size + CRLF + body)[..k]) == Stops
  {
    CutInHeader(c.size, body, k);
    DecodeNothing(c.size, k);
  }

  lemma CutLate(c: Chunk, after: string, k: nat)
    requires GoodChunk(c) && |c.size| + 2 <= k <= Need(c) + |after|
    ensures NextChunk((c.size + CRLF + (c.data + after))[..k]) ==
            if k < Need(c) then Stops else Took(c.data, after[..k - Need(c)])
  {
    var body, n := c.data + after, k - |c.size| - 2;
    CutInBody(c.size, body, k);
    DecodeOne(c, after, body[..n], n);
  }

  /** The next round on one chunk followed by anything, cut after `k` characters. */
  lemma CutChunk(c: Chunk, after: string, k: nat, s: string)
    requires GoodChunk(c) && k <= Need(c) + |after| && s == (c.size + CRLF + (c.data + after))[..k]
    ensures NextChunk(s) == if k < Need(c) then Stops else Took(c.data, after[..k - Need(c)])
  {
    if k < |c.size| + 2 { CutEarly(c, c.data + after, k); } else { CutLate(c, after, k); }
  }

  lemma Regrouped(size: string, data: string, tail: string)
    ensures size + CRLF + (data + (CRLF + tail)) == size + CRLF + data + CRLF + tail
  {
  }

  // What one round means for the whole loop.

  lemma DecodedStops(s: string)
    requires NextChunk(s).Stops?
    ensures Decoded(s) == Some("")
  {
  }

  lemma DecodedEnds(s: string, data: string, tail: string)
    requires NextChunk(s) == Took(data, tail) && !LineEndsAt(tail, 0)
    ensures Decoded(s) == Some(data)
  {
  }

  lemma DecodedGoesOn(s: string, data: string, tail: string)
    requires NextChunk(s) == Took(data, CRLF + tail)
    ensures Decoded(s) == Prefixed(data, Decoded(tail))
  {
    assert (CRLF + tail)[2..] == tail;
  }

  /** What is left after the data: a line end and a prefix of the rest, or less. */
  lemma CutRest(tail: string, r: nat)
    requires r <= 2 + |tail|
    ensures LineEndsAt((CRLF + tail)[..r], 0) == (r >= 2)
    ensures r >= 2 ==> (CRLF + tail)[..r] == CRLF + tail[..r - 2]
  {
  }

  /** On any prefix of an encoding the decoder does not panic and returns exactly
      the data of the leading chunks that arrived completely. */
  lemma {:induction false} TruncatedDecodes(cs: seq<Chunk>, k: nat)
    requires GoodChunks(cs) && k <= |Encoded(cs)|
    ensures Decoded(Encoded(cs)[..k]) == Some(Payload(cs[..Whole(cs, k)]))
  {
    if cs == [] {
      LastChunkIsEmpty(k);
    } else {
      var c, more, tail, s := cs[0], cs[1..], Encoded(cs[1..]), Encoded(cs)[..k];
      assert c in cs;
      Regrouped(c.size, c.data, tail);
      CutChunk(c, CRLF + tail, k, s);
      if k < Need(c) {
        DecodedStops(s);
        assert cs[..0] == [];
      } else {
        WholeStep(cs, k);
        CutRest(tail, k - Need(c));
        if k < Need(c) + 2 {
          DecodedEnds(s, c.data, (CRLF + tail)[..k - Need(c)]);
          NothingWhole(more);
          assert more[..0] == [] && c.data + "" == c.data;
        } else {
          DecodedGoesOn(s, c.data, tail[..k - Need(c) - 2]);
          TruncatedDecodes(more, k - Need(c) - 2);
        }
      }
    }
  }

  /** The first chunk has arrived. */
  lemma WholeStep(cs: seq<Chunk>, k: nat)
    requires cs != [] && k >= Need(cs[0])
    ensures var left := if k < Need(cs[0]) + 2 then 0 else k - Need(cs[0]) - 2;
            Payload(cs[..Whole(cs, k)]) == cs[0].data + Payload(cs[1..][..Whole(cs[1..], left)])
  {
    var n := Whole(cs[1..], if k < Need(cs[0]) + 2 then 0 else k - Need(cs[0]) - 2);
    assert Whole(cs, k) == n + 1;
    assert cs[..n + 1][0] == cs[0] && cs[..n + 1][1..] == cs[1..][..n];
  }

  lemma NothingWhole(cs: seq<Chunk>)
    ensures Whole(cs, 0) == 0
  {
  }

  lemma {:induction false} AllWhole(cs: seq<Chunk>)
    ensures Whole(cs, |Encoded(cs)|) == |cs|
  {
    if cs != [] { AllWhole(cs[1..]); }
  }

  /** Decoding inverts encoding, however the payload was cut into chunks. */
  lemma DecodeInvertsEncode(cs: seq<Chunk>)
    requires GoodChunks(cs)
    ensures Decoded(Encoded(cs)) == Some(Payload(cs))
  {
    AllWhole(cs);
    TruncatedDecodes(cs, |Encoded(cs)|);
    assert Encoded(cs)[..|Encoded(cs)|] == Encoded(cs);
    assert cs[..|cs|] == cs;
  }

  // ---- Plain sizes ----

  lemma DigitsArePlain(s: string)
    requires s != "" && AllDigits(s, 16)
    ensures NoBreak(s) && Trim(s) == s
  {
    assert IsDigit(s[0], 16) && IsDigit(s[|s| - 1], 16);
    TrimmedIff(s);
    forall i | 0 <= i < |s| ensures s[i] != '\r' { assert IsDigit(s[i], 16); }
  }

  lemma HexIsPlain(n: nat)
    requires n < U64_LIMIT
    ensures var s := Printed(n, 16);
            NoBreak(s) && Trim(s) == s && Parse(s, 16) == Some(n)
  {
    PrintedRoundTrip(n, 16);
    ParsePrinted(n, 16);
    DigitsArePlain(Printed(n, 16));
  }

  lemma HexSizeIsGood(data: string)
    requires 0 < ByteLen(data) < U64_LIMIT
    ensures GoodChunk(Chunk(Printed(ByteLen(data), 16), data))
  {
    var size := Printed(ByteLen(data), 16);
    HexIsPlain(ByteLen(data));
  }

  /** Each part as one chunk with a hexadecimal size. */
  function Chunked(parts: seq<string>): seq<Chunk> {
    if parts == [] then [] else [Chunk(Printed(ByteLen(parts[0]), 16), parts[0])] + Chunked(parts[1..])
  }

  function Joined(parts: seq<string>): string {
    if parts == [] then "" else parts[0] + Joined(parts[1..])
  }

  lemma {:induction false} ChunkedIsGood(parts: seq<string>)
    requires forall p :: p in parts ==> 0 < ByteLen(p) < U64_LIMIT
    ensures GoodChunks(Chunked(parts)) && Payload(Chunked(parts)) == Joined(parts)
  {
    if parts != [] {
      assert parts[0] in parts;
      HexSizeIsGood(parts[0]);
      ChunkedIsGood(parts[1..]);
      assert Chunked(parts)[1..] == Chunked(parts[1..]);
    }
  }

  /** With sizes printed in hexadecimal every cut of a text into non-empty parts is
      read back whole. */
  lemma EverySplitDecodes(parts: seq<string>)
    requires forall p :: p in parts ==> 0 < ByteLen(p) < U64_LIMIT
    ensures Decoded(Encoded(Chunked(parts))) == Some(Joined(parts))
  {
    ChunkedIsGood(parts);
    DecodeInvertsEncode(Chunked(parts));
  }

  // ---- Panics ----

  /** The size is within the text but no prefix of the text has that many bytes:
      it ends inside a character. */
  ghost predicate SplitsCharacter(size: string, rest: string) {
    var n := Parse(Trim(size), 16);
    && n.Some? && n.value <= ByteLen(rest)
    && forall k :: 0 <= k <= |rest| ==> ByteLen(rest[..k]) != n.value
  }

  lemma RoundPanicsIff(size: string, rest: string)
    requires NoBreak(size)
    ensures NextChunk(size + CRLF + rest).Panics? <==> SplitsCharacter(size, rest)
  {
    var n := Parse(Trim(size), 16);
    RoundOn(size, rest);
    assert rest[..0] == "";
    if n.Some? { CharsInIff(rest, n.value); }
  }

  /** Good chunks, then one whose size splits a character. */
  ghost predicate BadAt(s: string, cs: seq<Chunk>, size: string, rest: string) {
    GoodChunks(cs) && NoBreak(size) && SplitsCharacter(size, rest) && s == Framed(cs, size + CRLF + rest)
  }

  /** A good chunk is taken whatever follows it. */
  lemma FirstIsTaken(cs: seq<Chunk>, tail: string)
    requires cs != [] && GoodChunks(cs)
    ensures Decoded(Framed(cs, tail)) == Prefixed(cs[0].data, Decoded(Framed(cs[1..], tail)))
  {
    var c, after := cs[0], CRLF + Framed(cs[1..], tail);
    assert c in cs;
    Regrouped(c.size, c.data, Framed(cs[1..], tail));
    assert (c.data + after)[..|c.data + after|] == c.data + after && after[..|after|] == after;
    DecodeOne(c, after, c.data + after, |c.data + after|);
    DecodedGoesOn(Framed(cs, tail), c.data, Framed(cs[1..], tail));
  }

  lemma {:induction false} BadPanics(s: string, cs: seq<Chunk>, size: string, rest: string)
    requires BadAt(s, cs, size, rest)
    ensures Decoded(s).None?
    decreases |cs|
  {
    if cs == [] {
      RoundPanicsIff(size, rest);
    } else {
      FirstIsTaken(cs, size + CRLF + rest);
      BadPanics(Framed(cs[1..], size + CRLF + rest), cs[1..], size, rest);
    }
  }

  lemma {:induction false} LineEndIsFirst(s: string, i: nat)
    requires i <= |s|
    ensures forall j :: i <= j < LineEnd(s, i) ==> !LineEndsAt(s, j)
    decreases |s| - i
  {
    if i < |s| && !LineEndsAt(s, i) { LineEndIsFirst(s, i + 1); }
  }

  lemma FirstLineHasNoBreak(s: string)
    ensures NoBreak(s[..LineEnd(s, 0)])
  {
    var k := LineEnd(s, 0);
    LineEndIsFirst(s, 0);
    forall j | 0 <= j < k ensures !LineEndsAt(s[..k], j) { assert !LineEndsAt(s, j); }
  }

  /** Where the text up to a line end is a size line. */
  lemma SizeLine(s: string) returns (size: string, rest: string)
    requires !NextChunk(s).Stops?
    ensures NoBreak(size) && s == size + CRLF + rest
  {
    var k := LineEnd(s, 0);
    size, rest := s[..k], s[k + 2..];
    FirstLineHasNoBreak(s);
  }

  lemma TakesWhole(len: Option<nat>, rest: string)
    requires TakeChunk(len, rest).Took?
    ensures var c := TakeChunk(len, rest);
            len == Some(ByteLen(c.data)) && c.data != "" && rest == c.data + c.tail
  {
    CharsInIff(rest, len.value);
  }

  /** A chunk that was taken was a good one. */
  lemma TakenIsGood(size: string, rest: string, s: string)
    requires NoBreak(size) && s == size + CRLF + rest && NextChunk(s).Took?
    ensures var c := NextChunk(s);
            GoodChunk(Chunk(size, c.data)) && rest == c.data + c.tail
  {
    RoundOn(size, rest);
    TakesWhole(Parse(Trim(size), 16), rest);
  }

  lemma BadAfterChunk(first: Chunk, s: string, cs: seq<Chunk>, size: string, rest: string)
    requires GoodChunk(first) && BadAt(s, cs, size, rest)
    ensures BadAt(first.size + CRLF + first.data + CRLF + s, [first] + cs, size, rest)
  {
    assert ([first] + cs)[1..] == cs;
  }

  lemma PanicHere(s: string) returns (size: string, rest: string)
    requires NextChunk(s).Panics?
    ensures BadAt(s, [], size, rest)
  {
    size, rest := SizeLine(s);
    RoundPanicsIff(size, rest);
  }

  lemma TailPanics(s: string)
    requires Decoded(s).None? && !NextChunk(s).Panics?
    ensures var c := NextChunk(s);
            c.Took? && LineEndsAt(c.tail, 0) && Decoded(c.tail[2..]).None?
  {
  }

  lemma AfterLineEnd(s: string)
    requires LineEndsAt(s, 0)
    ensures s == CRLF + s[2..]
  {
  }

  lemma PanicLater(s: string) returns (first: Chunk, tail: string)
    requires Decoded(s).None? && !NextChunk(s).Panics?
    ensures GoodChunk(first) && s == first.size + CRLF + first.data + CRLF + tail
    ensures Decoded(tail).None? && |tail| < |s|
  {
    TailPanics(s);
    var c := NextChunk(s);
    var size, rest := SizeLine(s);
    TakenIsGood(size, rest, s);
    first, tail := Chunk(size, c.data), c.tail[2..];
    AfterLineEnd(c.tail);
    Regrouped(size, c.data, tail);
  }

  lemma {:induction false} PanicIsBad(s: string) returns (cs: seq<Chunk>, size: string, rest: string)
    requires Decoded(s).None?
    ensures BadAt(s, cs, size, rest)
    decreases |s|
  {
    if NextChunk(s).Panics? {
      cs := [];
      size, rest := PanicHere(s);
    } else {
      var first, tail := PanicLater(s);
      cs, size, rest := PanicIsBad(tail);
      BadAfterChunk(first, tail, cs, size, rest);
      cs := [first] + cs;
    }
  }

  /** The decoder panics on a body exactly if the body is some good chunks followed by
      one whose size splits a character. */
  lemma PanicsIff(s: string)
    ensures Decoded(s).None? <==> exists cs, size, rest :: BadAt(s, cs, size, rest)
  {
    if Decoded(s).None? {
      var cs, size, rest := PanicIsBad(s);
    }
    if cs, size, rest :| BadAt(s, cs, size, rest) { BadPanics(s, cs, size, rest); }
  }
}
