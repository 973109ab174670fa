/** Chunked bodies and response splitting of src/net/http_client.cpp. `Dechunk` is the decoder over
    unbounded numbers; `MachineStep` is one turn of the source's loop in 64-bit arithmetic. */
module Chunked {
  import opened Common
  import opened Xml
  import opened Markup
  import opened AppList

  // ----- sizes

  /** The length of the longest prefix of hexadecimal digits. */
  function HexSpan(s: string): (n: nat)
    ensures n <= |s| && AllHex(s[..n])
    ensures n < |s| ==> !IsHex(s[n])
  {
    if s != "" && IsHex(s[0]) then
      var n := 1 + HexSpan(s[1..]);
      assert forall i :: 0 < i < n ==> s[..n][i] == s[1..][..n - 1][i - 1];
      n
    else 0
  }

  /** The number a run of hexadecimal digits denotes. */
  function HexNumber(h: string): nat
    requires AllHex(h)
  {
    if h == "" then 0
    else
      assert IsHex(h[|h| - 1]);
      16 * HexNumber(h[..|h| - 1]) + HexVal(h[|h| - 1])
  }

  function LineSize(line: string): nat {
    HexNumber(line[..HexSpan(line)])
  }

  /** A size is the number that its digits spell, in any case. */
  lemma {:induction false} HexNumberIs(h: string, n: nat)
    ensures AllHex(h) && HexNumber(h) == n <==> SpellsHex(h, n)
  {
    if h != "" {
      var init, c := h[..|h| - 1], h[|h| - 1];
      HexNumberIs(init, n / 16);
      HexTable(c, n % 16);
      if AllHex(h) {
        assert IsHex(c);
      }
      if SpellsHex(h, n) {
        assert forall i :: 0 <= i < |init| ==> h[i] == init[i];
      }
    }
  }

  // ----- decoding

  /** A size line and what follows it, when it announces a chunk that is wholly there. */
  datatype Turn = Stop | Chunk(data: string, rest: string)

  function NextChunk(s: string): (r: Turn)
    ensures r.Chunk? ==> |r.rest| < |s|
  {
    var e := Search(s, "\r\n");
    if e.None? then Stop
    else
      var len := LineSize(e.value.before);
      var after := e.value.at[2..];
      if HexSpan(e.value.before) == 0 || len == 0 || len > |after| then Stop
      else Chunk(after[..len], if len + 2 <= |after| then after[len + 2..] else "")
  }

  function Dechunk(s: string): string
    decreases |s|
  {
    match NextChunk(s)
    case Stop => ""
    case Chunk(data, rest) => data + Dechunk(rest)
  }

  // ----- encodings: section 7.1 of RFC 9112

  /** The size in any spelling, an extension, the data. */
  datatype Coded = Coded(size: string, ext: string, data: string)

  ghost predicate LineOk(size: string, ext: string) {
    size != "" && AllHex(size) && Lacks(ext, '\r') && (ext != "" ==> !IsHex(ext[0]))
  }

  ghost predicate CodedOk(c: Coded) {
    LineOk(c.size, c.ext) && c.data != "" && SpellsHex(c.size, |c.data|)
  }

  ghost predicate AllCodedOk(cs: seq<Coded>) {
    forall i :: 0 <= i < |cs| ==> CodedOk(cs[i])
  }

  function LineThen(size: string, ext: string, rest: string): string {
    (size + ext) + ("\r\n" + rest)
  }

  function CodedThen(c: Coded, rest: string): string {
    LineThen(c.size, c.ext, c.data + ("\r\n" + rest))
  }

  function ChunksThen(cs: seq<Coded>, rest: string): string {
    if cs == [] then rest else CodedThen(cs[0], ChunksThen(cs[1..], rest))
  }

  function Join(cs: seq<Coded>): string {
    if cs == [] then "" else cs[0].data + Join(cs[1..])
  }

  lemma {:induction false} HexSpanOf(h: string, rest: string)
    requires AllHex(h) && (rest != "" ==> !IsHex(rest[0]))
    ensures HexSpan(h + rest) == |h|
  {
    if h == "" {
      assert h + rest == rest;
    } else {
      assert (h + rest)[1..] == h[1..] + rest;
      HexSpanOf(h[1..], rest);
    }
  }

  lemma LineOfSize(size: string, ext: string, rest: string)
    requires LineOk(size, ext)
    ensures HexSpan(size + ext) == |size| && LineSize(size + ext) == HexNumber(size)
    ensures Search(LineThen(size, ext, rest), "\r\n") == Some(Split(size + ext, "\r\n" + rest))
  {
    HexSpanOf(size, ext);
    assert (size + ext)[..|size|] == size;
    LineLacksCr(size, ext);
    SearchFinds(size + ext, "\r\n" + rest, "\r\n");
  }

  /** A chunk is taken as soon as its data is complete, whatever is left of the line end after it. */
  lemma NextOfChunk(c: Coded, tail: string)
    requires CodedOk(c)
    ensures NextChunk(LineThen(c.size, c.ext, c.data + tail)) == Chunk(c.data, if |tail| >= 2 then tail[2..] else "")
  {
    hide Search, LineSize, HexSpan;
    HexNumberIs(c.size, |c.data|);
    var after := c.data + tail;
    LineOfSize(c.size, c.ext, after);
    assert ("\r\n" + after)[2..] == after;
    assert after[..|c.data|] == c.data;
    if |tail| >= 2 {
      assert after[|c.data| + 2..] == tail[2..];
    }
  }

  lemma DechunkCoded(c: Coded, rest: string)
    requires CodedOk(c)
    ensures Dechunk(CodedThen(c, rest)) == c.data + Dechunk(rest)
  {
    hide NextChunk;
    NextOfChunk(c, "\r\n" + rest);
    assert ("\r\n" + rest)[2..] == rest;
  }

  /** What ends the chunks: a size of zero, then anything. */
  ghost predicate IsLast(s: string) {
    exists size, ext, trailer :: LastLine(size, ext) && s == LineThen(size, ext, trailer)
  }

  ghost predicate LastLine(size: string, ext: string) {
    LineOk(size, ext) && SpellsHex(size, 0)
  }

  lemma DechunkLast(s: string)
    requires IsLast(s)
    ensures Dechunk(s) == ""
  {
    var size, ext, trailer :| LastLine(size, ext) && s == LineThen(size, ext, trailer);
    LineOfSize(size, ext, trailer);
    HexNumberIs(size, 0);
  }

  /** Decoding undoes every chunked encoding. */
  lemma {:induction false} DechunkEncoded(cs: seq<Coded>, last: string)
    requires AllCodedOk(cs) && IsLast(last)
    ensures Dechunk(ChunksThen(cs, last)) == Join(cs)
  {
    hide CodedThen, Dechunk;
    if cs == [] {
      DechunkLast(last);
    } else {
      assert CodedOk(cs[0]);
      DechunkCoded(cs[0], ChunksThen(cs[1..], last));
      DechunkEncoded(cs[1..], last);
    }
  }

  // ----- truncation

  function ChunkLength(c: Coded): nat {
    |c.size| + |c.ext| + 2 + |c.data|
  }

  /** How many chunks have all their data within the first `k` bytes. */
  function WholeChunks(cs: seq<Coded>, k: nat): (m: nat)
    ensures m <= |cs|
  {
    if cs == [] || k < ChunkLength(cs[0]) then 0
    else 1 + WholeChunks(cs[1..], if k < ChunkLength(cs[0]) + 2 then 0 else k - ChunkLength(cs[0]) - 2)
  }

  lemma {:induction false} NoLineEnd(s: string)
    requires Lacks(s, '\n')
    ensures Search(s, "\r\n").None?
  {
    if s != "" {
      NoLineEnd(s[1..]);
      if |s| >= 2 {
        assert s[1] != '\n';
      }
    }
  }

  /** A size line cut before its line end, or cut data, is not a chunk. */
  lemma CutLine(size: string, ext: string, rest: string, k: nat)
    requires LineOk(size, ext) && k <= |size| + |ext| + 2 + |rest|
    requires k < |size| + |ext| + 2 + HexNumber(size)
    ensures Dechunk(LineThen(size, ext, rest)[..k]) == ""
  {
    var line, n := size + ext, |size| + |ext|;
    var s := LineThen(size, ext, rest)[..k];
    if k < n + 2 {
      LineLacksCr(size, ext);
      CutBeforeEnd(line, rest, k);
    } else {
      assert s == LineThen(size, ext, rest[..k - n - 2]);
      LineOfSize(size, ext, rest[..k - n - 2]);
      hide Search, LineSize, HexSpan;
      assert ("\r\n" + rest[..k - n - 2])[2..] == rest[..k - n - 2];
    }
  }

  lemma CutBeforeEnd(line: string, rest: string, k: nat)
    requires Lacks(line, '\r') && k < |line| + 2
    ensures Search((line + ("\r\n" + rest))[..k], "\r\n").None?
  {
    if k <= |line| {
      assert (line + ("\r\n" + rest))[..k] == line[..k] + "";
      SearchSkips(line[..k], "", "\r\n");
    } else {
      assert (line + ("\r\n" + rest))[..k] == line + "\r";
      SearchSkips(line, "\r", "\r\n");
      NoLineEnd("\r");
    }
  }

  lemma LineLacksCr(size: string, ext: string)
    requires LineOk(size, ext)
    ensures Lacks(size + ext, '\r')
  {
    forall i | 0 <= i < |size| ensures size[i] != '\r' {
      assert IsHex(size[i]);
    }
  }

  lemma DechunkNothing()
    ensures Dechunk("") == ""
  {
    NoLineEnd("");
  }

  /** Every truncation decodes to the join of the chunks that are complete. */
  lemma {:induction false} DechunkCut(cs: seq<Coded>, last: string, k: nat)
    requires AllCodedOk(cs) && IsLast(last) && k <= |ChunksThen(cs, last)|
    ensures Dechunk(ChunksThen(cs, last)[..k]) == Join(cs[..WholeChunks(cs, k)])
  {
    hide Dechunk, LineThen, LastLine, LineOk, HexNumber, SpellsHex;
    if cs == [] {
      var size, ext, trailer :| LastLine(size, ext) && last == LineThen(size, ext, trailer);
      CutLast(size, ext, trailer, k);
    } else {
      var c, rest := cs[0], ChunksThen(cs[1..], last);
      assert CodedOk(c);
      LineLength(c.size, c.ext, c.data + ("\r\n" + rest));
      HexNumberIs(c.size, |c.data|);
      var n := ChunkLength(c);
      if k < n {
        CutLine(c.size, c.ext, c.data + ("\r\n" + rest), k);
      } else {
        var j := if k < n + 2 then 0 else k - n - 2;
        DechunkCut(cs[1..], last, j);
        CutAfter(c, rest, k);
        if j == 0 {
          DechunkNothing();
          assert rest[..0] == "";
        }
        var m := WholeChunks(cs, k);
        assert cs[..m][1..] == cs[1..][..m - 1];
      }
    }
  }

  lemma LineLength(size: string, ext: string, rest: string)
    ensures |LineThen(size, ext, rest)| == |size| + |ext| + 2 + |rest|
  {
  }

  lemma CutLast(size: string, ext: string, trailer: string, k: nat)
    requires LastLine(size, ext) && k <= |LineThen(size, ext, trailer)|
    ensures Dechunk(LineThen(size, ext, trailer)[..k]) == ""
  {
    var n := |size| + |ext| + 2;
    HexNumberIs(size, 0);
    if k < n {
      CutLine(size, ext, trailer, k);
    } else {
      assert LineThen(size, ext, trailer)[..k] == LineThen(size, ext, trailer[..k - n]);
      LineOfSize(size, ext, trailer[..k - n]);
    }
  }

  lemma CutAfter(c: Coded, rest: string, k: nat)
    requires CodedOk(c) && ChunkLength(c) <= k <= |CodedThen(c, rest)|
    ensures
      var j := if k < ChunkLength(c) + 2 then 0 else k - ChunkLength(c) - 2;
      j <= |rest| && Dechunk(CodedThen(c, rest)[..k]) == c.data + Dechunk(rest[..j])
  {
    hide NextChunk;
    var n := ChunkLength(c);
    var tail := ("\r\n" + rest)[..k - n];
    assert CodedThen(c, rest)[..k] == LineThen(c.size, c.ext, c.data + tail);
    NextOfChunk(c, tail);
    if k >= n + 2 {
      assert tail[2..] == rest[..k - n - 2];
    } else {
      assert rest[..0] == "";
    }
  }

  // ----- the loop in 64-bit arithmetic

  const WORD: nat := 0x1_0000_0000_0000_0000

  datatype Machine = Halt(out: string) | At(i: nat, out: string)

  /** The size as the loop accumulates it, wrapping. */
  function WrappedSize(h: string): nat
    requires AllHex(h)
  {
    if h == "" then 0
    else
      assert IsHex(h[|h| - 1]);
      (WrappedSize(h[..|h| - 1]) * 16 + HexVal(h[|h| - 1])) % WORD
  }

  function Min(a: nat, b: nat): nat {
    if a < b then a else b
  }

  /** One turn of the loop. `append` takes what there is of the requested range. */
  function MachineStep(body: string, m: Machine): Machine {
    if m.Halt? then m
    else if m.i >= |body| then Halt(m.out)
    else
      var e := Search(body[m.i..], "\r\n");
      if e.None? then Halt(m.out)
      else
        var line := e.value.before;
        var len := WrappedSize(line[..HexSpan(line)]);
        var start := m.i + |line| + 2;
        if HexSpan(line) == 0 || len == 0 || (start + len) % WORD > |body| then Halt(m.out)
        else At((start + len + 2) % WORD, m.out + body[start..Min(start + len, |body|)])
  }

  function MachineRun(body: string, n: nat): Machine {
    if n == 0 then At(0, "") else MachineStep(body, MachineRun(body, n - 1))
  }

  ghost predicate Terminates(body: string) {
    exists n :: MachineRun(body, n).Halt?
  }

  /** On the way through the body no announced size, added to its position, leaves 64 bits. */
  ghost predicate NoWrap(body: string, i: nat)
    requires i <= |body|
    decreases |body| - i
  {
    var e := Search(body[i..], "\r\n");
    e.Some? ==>
      var start := i + |e.value.before| + 2;
      var len := LineSize(e.value.before);
      && start + len + 2 < WORD
      && (len != 0 && start + len + 2 <= |body| ==> NoWrap(body, start + len + 2))
  }

  lemma {:induction false} WrappedIsValue(h: string)
    requires AllHex(h)
    ensures WrappedSize(h) == HexNumber(h) % WORD
  {
    if h != "" {
      var p := h[..|h| - 1];
      WrappedIsValue(p);
      assert IsHex(h[|h| - 1]);
      ModStep(HexNumber(p), HexVal(h[|h| - 1]));
    }
  }

  lemma ModStep(x: nat, d: nat)
    ensures (x % WORD * 16 + d) % WORD == (16 * x + d) % WORD
  {
    var q := x / WORD;
    assert x == q * WORD + x % WORD;
    assert 16 * x + d == (16 * q) * WORD + (x % WORD * 16 + d);
    ModAddMultiple(16 * q, x % WORD * 16 + d);
  }

  lemma {:induction false} ModAddMultiple(k: nat, y: nat)
    ensures (k * WORD + y) % WORD == y % WORD
  {
    if k > 0 {
      ModAddMultiple(k - 1, y);
      assert k * WORD + y == ((k - 1) * WORD + y) + WORD;
    }
  }

  /** Where nothing wraps, a turn of the loop is a turn of the decoder. */
  lemma StepIsNextChunk(body: string, i: nat, out: string)
    requires i < |body| && |body| < WORD && NoWrap(body, i)
    ensures
      var m := MachineStep(body, At(i, out));
      match NextChunk(body[i..])
      case Stop => m == Halt(out)
      case Chunk(data, rest) =>
        && m.At? && m.out == out + data && i < m.i
        && (m.i <= |body| ==> rest == body[m.i..] && NoWrap(body, m.i))
        && (m.i > |body| ==> rest == "")
  {
    hide Search, HexSpan, HexNumber, MachineStep, NoWrap, LineSize, NextChunk;
    StepWithoutWrap(body, i, out);
    NextChunkAt(body, i);
    if Search(body[i..], "\r\n").Some? {
      UnfoldNoWrap(body, i);
    }
  }

  /** The decoder's turn, in positions of the whole body. */
  lemma NextChunkAt(body: string, i: nat)
    requires i < |body|
    ensures
      var e := Search(body[i..], "\r\n");
      && (e.None? ==> NextChunk(body[i..]) == Stop)
      && (e.Some? ==>
            var start := i + |e.value.before| + 2;
            var len := LineSize(e.value.before);
            NextChunk(body[i..])
            == if HexSpan(e.value.before) == 0 || len == 0 || start + len > |body| then Stop
               else Chunk(body[start..start + len], if start + len + 2 <= |body| then body[start + len + 2..] else ""))
  {
    hide Search, HexSpan, HexNumber, LineSize;
    var e := Search(body[i..], "\r\n");
    if e.Some? {
      SearchSplit(body[i..], "\r\n");
      SliceChunk(body, i, e.value.before, LineSize(e.value.before), e.value.at);
    }
  }

  lemma UnfoldNoWrap(body: string, i: nat)
    requires i <= |body| && NoWrap(body, i) && Search(body[i..], "\r\n").Some?
    ensures
      var line := Search(body[i..], "\r\n").value.before;
      var next := i + |line| + 2 + LineSize(line) + 2;
      next < WORD && (LineSize(line) != 0 && next <= |body| ==> NoWrap(body, next))
  {
    hide Search, LineSize;
  }

  lemma Fits(x: nat)
    requires x < WORD
    ensures x % WORD == x
  {
  }

  lemma StepWithoutWrap(body: string, i: nat, out: string)
    requires i < |body| && |body| < WORD
    ensures
      var e := Search(body[i..], "\r\n");
      && (e.None? ==> MachineStep(body, At(i, out)) == Halt(out))
      && (e.Some? ==>
            var start := i + |e.value.before| + 2;
            var len := LineSize(e.value.before);
            start + len + 2 < WORD ==>
              MachineStep(body, At(i, out))
              == if HexSpan(e.value.before) == 0 || len == 0 || start + len > |body| then Halt(out)
                 else At(start + len + 2, out + body[start..start + len]))
  {
    hide Search, HexSpan, HexNumber, WrappedSize, AllHex;
    var e := Search(body[i..], "\r\n");
    if e.Some? {
      var line := e.value.before;
      var len := LineSize(line);
      var start := i + |line| + 2;
      WrappedIsValue(line[..HexSpan(line)]);
      if start + len + 2 < WORD {
        Fits(len);
        Fits(start + len);
        Fits(start + len + 2);
      }
    }
  }

  lemma SliceChunk(body: string, i: nat, line: string, len: nat, at: string)
    requires i < |body| && body[i..] == line + at && |at| >= 2
    ensures
      var start := i + |line| + 2;
      && start + |at[2..]| == |body|
      && (len <= |at[2..]| ==> at[2..][..len] == body[start..start + len])
      && (len + 2 <= |at[2..]| ==> at[2..][len + 2..] == body[start + len + 2..])
  {
    var start := i + |line| + 2;
    assert at == body[i..][|line|..];
    assert at[2..] == body[start..];
  }

  lemma ConsSplit(s: string, a: string, b: string)
    requires s != "" && s[1..] == a + b
    ensures s == ([s[0]] + a) + b
  {
  }

  lemma {:induction false} SearchSplit(s: string, needle: string)
    ensures Search(s, needle).Some? ==> var r := Search(s, needle).value; s == r.before + r.at && needle <= r.at
  {
    if needle <= s {
      assert "" + s == s;
    } else if s != "" {
      SearchSplit(s[1..], needle);
      var r := Search(s[1..], needle);
      if r.Some? {
        ConsSplit(s, r.value.before, r.value.at);
      }
    }
  }

  /** The loop gets from one state to a halt with this output. */
  ghost predicate Ends(body: string, n: nat, out: string) {
    exists k :: k >= n && MachineRun(body, k) == Halt(out)
  }

  lemma {:induction false} RunFrom(body: string, n: nat, i: nat, out: string)
    requires |body| < WORD && i <= |body| && MachineRun(body, n) == At(i, out) && NoWrap(body, i)
    ensures Ends(body, n, out + Dechunk(body[i..]))
    decreases |body| - i
  {
    hide MachineStep, NoWrap, NextChunk;
    var next := MachineRun(body, n + 1);
    if i == |body| {
      RunEnds(body, n, i, out);
      assert body[i..] == "";
    } else {
      StepIsNextChunk(body, i, out);
      match NextChunk(body[i..])
      case Stop =>
        assert out + "" == out;
        assert Ends(body, n, out);
      case Chunk(data, rest) =>
        assert out + (data + Dechunk(rest)) == (out + data) + Dechunk(rest);
        if next.i <= |body| {
          RunFrom(body, n + 1, next.i, next.out);
        } else {
          RunEnds(body, n + 1, next.i, next.out);
        }
    }
  }

  lemma RunEnds(body: string, n: nat, i: nat, out: string)
    requires MachineRun(body, n) == At(i, out) && i >= |body|
    ensures Ends(body, n, out + Dechunk(""))
  {
    DechunkNothing();
    HaltsAtEnd(body, At(i, out));
    assert out + "" == out;
    assert MachineRun(body, n + 1) == Halt(out);
  }

  lemma HaltsAtEnd(body: string, m: Machine)
    requires m.At? && m.i >= |body|
    ensures MachineStep(body, m) == Halt(m.out)
  {
  }

  /** Where no size wraps, the loop ends, with what the decoder gives. */
  lemma TerminatesUnlessWrapping(body: string)
    requires |body| < WORD && NoWrap(body, 0)
    ensures Terminates(body)
    ensures exists k :: MachineRun(body, k) == Halt(Dechunk(body))
  {
    hide MachineStep, NoWrap, Dechunk, NextChunk;
    RunFrom(body, 0, 0, "");
    assert body[0..] == body;
    assert "" + Dechunk(body) == Dechunk(body);
  }

  // ----- exactly when the loop ends

  /** The run comes back to a position it was at before. */
  ghost predicate Revisits(body: string) {
    exists a, b :: ComesBack(body, a, b)
  }

  ghost predicate ComesBack(body: string, a: nat, b: nat) {
    a < b && MachineRun(body, a).At? && MachineRun(body, b).At? && MachineRun(body, a).i == MachineRun(body, b).i
  }

  lemma {:induction false} HaltStays(body: string, n: nat, k: nat)
    requires n <= k && MachineRun(body, n).Halt?
    ensures MachineRun(body, k) == MachineRun(body, n)
  {
    hide Search, HexSpan, WrappedSize;
    if n < k {
      HaltStays(body, n, k - 1);
    }
  }

  /** The next position depends on the position alone. */
  lemma StepByPosition(body: string, m: Machine, other: Machine)
    requires m.Halt? == other.Halt? && (m.At? ==> m.i == other.i)
    ensures
      var x, y := MachineStep(body, m), MachineStep(body, other);
      x.Halt? == y.Halt? && (x.At? ==> x.i == y.i)
  {
    hide Search, HexSpan, WrappedSize;
  }

  lemma {:induction false} SameFrom(body: string, a: nat, b: nat, k: nat)
    requires ComesBack(body, a, b)
    ensures MachineRun(body, a + k).Halt? == MachineRun(body, b + k).Halt?
    ensures MachineRun(body, a + k).At? ==> MachineRun(body, a + k).i == MachineRun(body, b + k).i
  {
    hide MachineStep;
    if k > 0 {
      SameFrom(body, a, b, k - 1);
      StepByPosition(body, MachineRun(body, a + k - 1), MachineRun(body, b + k - 1));
    }
  }

  lemma {:induction false} RevisitingNeverHalts(body: string, a: nat, b: nat, n: nat)
    requires ComesBack(body, a, b)
    ensures MachineRun(body, n).At?
    decreases n
  {
    hide MachineStep;
    if n <= b {
      if MachineRun(body, n).Halt? {
        HaltStays(body, n, b);
      }
    } else {
      RevisitingNeverHalts(body, a, b, n - (b - a));
      SameFrom(body, a, b, n - b);
    }
  }

  /** A turn that goes on started inside the body. */
  lemma InsideBefore(body: string, k: nat, n: nat)
    requires k < n && MachineRun(body, n).At?
    ensures MachineRun(body, k).At? && MachineRun(body, k).i < |body|
  {
    var m := MachineRun(body, k);
    var next := MachineRun(body, k + 1);
    if m.Halt? || next.Halt? {
      HaltStays(body, if m.Halt? then k else k + 1, n);
    } else if m.i >= |body| {
      HaltsAtEnd(body, m);
    }
  }

  lemma {:induction false} Below(n: nat, s: set<nat>)
    requires forall x :: x in s ==> x < n
    ensures |s| <= n
  {
    if n == 0 {
      assert s == {};
    } else {
      Below(n - 1, s - {n - 1});
    }
  }

  function Position(m: Machine): nat {
    if m.At? then m.i else 0
  }

  /** The positions at the start of the first turns. */
  ghost function Visited(body: string, n: nat): set<nat> {
    if n == 0 then {} else Visited(body, n - 1) + {Position(MachineRun(body, n - 1))}
  }

  ghost predicate StartsAt(body: string, k: nat, x: nat) {
    MachineRun(body, k).At? && MachineRun(body, k).i == x
  }

  lemma {:induction false} VisitedAt(body: string, n: nat, x: nat) returns (k: nat)
    requires MachineRun(body, n).At? && x in Visited(body, n)
    ensures k < n && StartsAt(body, k, x) && x < |body|
  {
    hide MachineRun;
    InsideBefore(body, n - 1, n);
    k := n - 1;
    if x != Position(MachineRun(body, n - 1)) {
      k := VisitedAt(body, n - 1, x);
    }
  }

  lemma ElsewhereLater(body: string, a: nat, b: nat)
    requires a < b && !Revisits(body)
    ensures !ComesBack(body, a, b)
  {
  }

  lemma {:induction false} VisitedGrows(body: string, n: nat)
    requires MachineRun(body, n).At? && !Revisits(body)
    ensures |Visited(body, n)| == n
  {
    hide MachineRun;
    if n > 0 {
      InsideBefore(body, n - 1, n);
      VisitedGrows(body, n - 1);
      var i := Position(MachineRun(body, n - 1));
      if i in Visited(body, n - 1) {
        var k := VisitedAt(body, n - 1, i);
        ElsewhereLater(body, k, n - 1);
      }
    }
  }

  /** The loop ends exactly when it never comes back to a position, and then within one turn more than
      the body has bytes. */
  lemma TerminatesExactly(body: string)
    ensures Terminates(body) <==> !Revisits(body)
    ensures Terminates(body) <==> MachineRun(body, |body| + 1).Halt?
  {
    hide MachineRun;
    if Revisits(body) {
      var a, b :| ComesBack(body, a, b);
      forall n: nat ensures MachineRun(body, n).At? {
        RevisitingNeverHalts(body, a, b, n);
      }
    } else if MachineRun(body, |body| + 1).At? {
      VisitedGrows(body, |body| + 1);
      var seen := Visited(body, |body| + 1);
      forall x | x in seen ensures x < |body| {
        var k := VisitedAt(body, |body| + 1, x);
      }
      Below(|body|, seen);
    }
  }

  /** Size lines on the way have at most fifteen digits. */
  ghost predicate ShortSizes(body: string, i: nat)
    requires i <= |body|
    decreases |body| - i
  {
    var e := Search(body[i..], "\r\n");
    e.Some? ==>
      var line := e.value.before;
      var next := i + |line| + 2 + LineSize(line) + 2;
      HexSpan(line) <= 15 && (LineSize(line) != 0 && next <= |body| ==> ShortSizes(body, next))
  }

  function Pow16(n: nat): nat {
    if n == 0 then 1 else 16 * Pow16(n - 1)
  }

  lemma {:induction false} HexNumberBound(h: string)
    requires AllHex(h)
    ensures HexNumber(h) < Pow16(|h|)
  {
    if h != "" {
      HexNumberBound(h[..|h| - 1]);
    }
  }

  lemma {:induction false} Pow16Grows(a: nat, b: nat)
    requires a <= b
    ensures Pow16(a) <= Pow16(b)
  {
    if a < b {
      Pow16Grows(a, b - 1);
    }
  }

  lemma FifteenDigits(h: string)
    requires AllHex(h) && |h| <= 15
    ensures HexNumber(h) < 0x1000_0000_0000_0000
  {
    HexNumberBound(h);
    Pow16Grows(|h|, 15);
    assert Pow16(5) == 0x10_0000;
    assert Pow16(10) == 0x100_0000_0000 by { assert Pow16(8) == 0x1_0000_0000; }
    assert Pow16(15) == 0x1000_0000_0000_0000 by { assert Pow16(13) == 0x10_0000_0000_0000; }
  }

  lemma {:induction false} ShortSizesDoNotWrap(body: string, i: nat)
    requires i <= |body| && |body| < 0x8000_0000_0000_0000 && ShortSizes(body, i)
    ensures NoWrap(body, i)
    decreases |body| - i
  {
    hide Search, HexSpan, HexNumber;
    var e := Search(body[i..], "\r\n");
    if e.Some? {
      var line := e.value.before;
      FifteenDigits(line[..HexSpan(line)]);
      var next := i + |line| + 2 + LineSize(line) + 2;
      if LineSize(line) != 0 && next <= |body| {
        ShortSizesDoNotWrap(body, next);
      }
    }
  }

  /** The loop ends on every body whose size lines have at most fifteen digits. */
  lemma ShortSizesTerminate(body: string)
    requires |body| < 0x8000_0000_0000_0000 && ShortSizes(body, 0)
    ensures Terminates(body) && exists k :: MachineRun(body, k) == Halt(Dechunk(body))
  {
    ShortSizesDoNotWrap(body, 0);
    TerminatesUnlessWrapping(body);
  }

  // ----- encodings do not wrap

  lemma {:induction false} EncodedDoesNotWrap(pre: string, cs: seq<Coded>, last: string)
    requires AllCodedOk(cs) && IsLast(last) && |pre + ChunksThen(cs, last)| + 2 < WORD
    ensures NoWrap(pre + ChunksThen(cs, last), |pre|)
    decreases |cs|
  {
    hide NoWrap, LineOk, LineThen, HexNumber, LastLine, SpellsHex;
    var body := pre + ChunksThen(cs, last);
    assert body[|pre|..] == ChunksThen(cs, last);
    if cs == [] {
      var size, ext, trailer :| LastLine(size, ext) && last == LineThen(size, ext, trailer);
      NoWrapAtLast(body, |pre|, size, ext, trailer);
    } else {
      var c, rest := cs[0], ChunksThen(cs[1..], last);
      assert CodedOk(c);
      var head := (c.size + c.ext) + ("\r\n" + (c.data + "\r\n"));
      assert CodedThen(c, rest) == head + rest by { RegroupChunk(c, rest); }
      assert body == (pre + head) + rest;
      EncodedDoesNotWrap(pre + head, cs[1..], last);
      NoWrapAtChunk(body, |pre|, c, rest);
    }
  }

  lemma RegroupChunk(c: Coded, rest: string)
    ensures CodedThen(c, rest) == ((c.size + c.ext) + ("\r\n" + (c.data + "\r\n"))) + rest
  {
  }

  lemma NoWrapAtLast(body: string, i: nat, size: string, ext: string, trailer: string)
    requires LastLine(size, ext) && i <= |body| && body[i..] == LineThen(size, ext, trailer) && |body| + 2 < WORD
    ensures NoWrap(body, i)
  {
    hide Search, HexSpan, HexNumber;
    LineOfSize(size, ext, trailer);
    HexNumberIs(size, 0);
  }

  lemma NoWrapAtChunk(body: string, i: nat, c: Coded, rest: string)
    requires CodedOk(c) && i <= |body| && body[i..] == CodedThen(c, rest) && |body| + 2 < WORD
    requires NoWrap(body, |body| - |rest|)
    ensures NoWrap(body, i)
  {
    hide Search, HexSpan, HexNumber, SpellsHex;
    LineOfSize(c.size, c.ext, c.data + ("\r\n" + rest));
    HexNumberIs(c.size, |c.data|);
    assert i + |c.size + c.ext| + 2 + |c.data| + 2 == |body| - |rest|;
  }

  /** The source's loop ends on every chunked encoding that fits in memory, with the joined data. */
  lemma MachineDecodesEncoded(cs: seq<Coded>, last: string)
    requires AllCodedOk(cs) && IsLast(last) && |ChunksThen(cs, last)| + 2 < WORD
    ensures exists k :: MachineRun(ChunksThen(cs, last), k) == Halt(Join(cs))
  {
    var body := ChunksThen(cs, last);
    assert "" + body == body;
    EncodedDoesNotWrap("", cs, last);
    TerminatesUnlessWrapping(body);
    DechunkEncoded(cs, last);
  }

  // ----- a body on which the loop does not end

  function Fs(n: nat): (h: string)
    ensures |h| == n && AllHex(h) && forall i :: 0 <= i < n ==> h[i] == 'f'
  {
    if n == 0 then "" else Fs(n - 1) + "f"
  }

  lemma {:induction false} FsNumber(n: nat)
    ensures HexNumber(Fs(n)) == Pow16(n) - 1
  {
    if n > 0 {
      FsNumber(n - 1);
      assert Fs(n)[..n - 1] == Fs(n - 1);
    }
  }

  /** Two digits that overflow away, then 2^64 - 20: the next position is always 2. */
  const LOOPING_LINE: string := Fs(14) + "ec"

  lemma LoopingSize()
    ensures AllHex(LOOPING_LINE) && |LOOPING_LINE| == 16 && HexNumber(LOOPING_LINE) == WORD - 20
  {
    var a, b := Fs(14), Fs(14) + "e";
    FsNumber(14);
    assert Pow16(14) == 0x100_0000_0000_0000 by {
      assert Pow16(5) == 0x10_0000;
      assert Pow16(10) == 0x100_0000_0000 by { assert Pow16(8) == 0x1_0000_0000; }
      assert Pow16(12) == 0x1_0000_0000_0000;
    }
    assert b[..14] == a && LOOPING_LINE[..15] == b;
    assert HexNumber(b) == 16 * HexNumber(a) + 14;
    assert HexNumber(LOOPING_LINE) == 16 * HexNumber(b) + 12;
  }

  lemma {:induction false} LeadingZeros(h: string)
    requires AllHex(h)
    ensures AllHex("00" + h) && HexNumber("00" + h) == HexNumber(h)
  {
    var s := "00" + h;
    if h == "" {
      assert s[..1][..0] == "" && s[..1] == "0";
      assert HexNumber(s[..1]) == 0;
    } else {
      LeadingZeros(h[..|h| - 1]);
      assert s[..|s| - 1] == "00" + h[..|h| - 1];
    }
  }

  /** A line that announces 2^64 - 20 bytes and ends 20 bytes into the body. */
  ghost predicate LoopsAt(body: string, i: nat, line: string) {
    && i < |body| && body[i..] == line + "\r\n" && line != "" && AllHex(line)
    && HexNumber(line) == WORD - 20 && i + |line| + 2 == 20
  }

  lemma LoopingLine(body: string, i: nat, line: string)
    requires LoopsAt(body, i, line)
    ensures Search(body[i..], "\r\n") == Some(Split(line, "\r\n"))
    ensures HexSpan(line) == |line| && line[..|line|] == line && WrappedSize(line) == WORD - 20
  {
    hide Search, HexSpan, HexNumber, WrappedSize, LineSize;
    assert line + "" == line;
    LineOfSize(line, "", "");
    WrappedIsValue(line);
    assert (WORD - 20) % WORD == WORD - 20;
    assert "\r\n" + "" == "\r\n";
    assert LineThen(line, "", "") == line + "\r\n";
  }

  lemma LoopingStep(body: string, i: nat, line: string)
    requires LoopsAt(body, i, line)
    ensures MachineStep(body, At(i, "")) == At(2, "")
  {
    hide Search, HexSpan, HexNumber, WrappedSize, AllHex;
    LoopingLine(body, i, line);
    assert |body| == 20;
    assert (20 + (WORD - 20)) % WORD == 0;
    assert (20 + (WORD - 20) + 2) % WORD == 2;
    assert Min(20 + (WORD - 20), |body|) == 20;
    assert body[20..20] == "" && "" + "" == "";
  }

  /** The loop does not end on every input: from such a line it returns to the same place for ever. */
  lemma {:induction false} LoopsForever(body: string, outer: string, inner: string, n: nat)
    requires LoopsAt(body, 0, outer) && LoopsAt(body, 2, inner)
    ensures MachineRun(body, n) == At(if n == 0 then 0 else 2, "")
  {
    hide MachineStep, LoopsAt;
    if n > 0 {
      LoopsForever(body, outer, inner, n - 1);
      LoopingStep(body, 0, outer);
      LoopingStep(body, 2, inner);
    }
  }

  const LOOPING_BODY: string := "00" + LOOPING_LINE + "\r\n"

  lemma NotAlwaysTerminating()
    ensures !Terminates(LOOPING_BODY)
  {
    LoopingSize();
    LeadingZeros(LOOPING_LINE);
    hide HexNumber, Fs;
    assert LOOPING_BODY[0..] == ("00" + LOOPING_LINE) + "\r\n";
    assert LOOPING_BODY[2..] == LOOPING_LINE + "\r\n";
    forall n: nat ensures !MachineRun(LOOPING_BODY, n).Halt? {
      LoopsForever(LOOPING_BODY, "00" + LOOPING_LINE, LOOPING_LINE, n);
    }
  }

  // ----- the loop as it runs

  /** The digits of a size line, accumulated modulo 2^64. */
  method ReadSize(body: string, i: nat, eol: nat) returns (len: nat, any: bool)
    requires i <= eol <= |body|
    ensures var line := body[i..eol]; any == (HexSpan(line) > 0) && len == WrappedSize(line[..HexSpan(line)])
  {
    hide HexVal;
    len, any := 0, false;
    ghost var line := body[i..eol];
    var j := i;
    while j < eol && IsHex(body[j])
      invariant i <= j <= eol && AllHex(line[..j - i])
      invariant any == (j > i)
      invariant len == WrappedSize(line[..j - i])
    {
      assert line[..j + 1 - i][..j - i] == line[..j - i];
      assert line[j - i] == body[j];
      len := (len * 16 + HexVal(body[j])) % WORD;
      any := true;
      j := j + 1;
    }
    HexSpanOf(line[..j - i], line[j - i..]);
    assert line == line[..j - i] + line[j - i..];
  }

  /** A run halts with one output only. */
  lemma HaltsOnce(body: string, n: nat, k: nat)
    requires MachineRun(body, n).Halt? && MachineRun(body, k).Halt?
    ensures MachineRun(body, n) == MachineRun(body, k)
  {
    if n <= k { HaltStays(body, n, k); } else { HaltStays(body, k, n); }
  }

  /** What the run halts with, where no size wraps. */
  lemma HaltIsDechunk(body: string, n: nat)
    requires MachineRun(body, n).Halt? && |body| < WORD && NoWrap(body, 0)
    ensures MachineRun(body, n).out == Dechunk(body)
  {
    hide MachineRun, NoWrap, Dechunk;
    TerminatesUnlessWrapping(body);
    var k :| MachineRun(body, k) == Halt(Dechunk(body));
    HaltsOnce(body, n, k);
  }

  /** On every body on which the loop ends at all. */
  method DechunkLoop(body: string) returns (out: string)
    requires Terminates(body)
    ensures MachineRun(body, |body| + 1) == Halt(out)
    ensures |body| < WORD && NoWrap(body, 0) ==> out == Dechunk(body)
  {
    hide NoWrap, MachineStep, Dechunk;
    TerminatesExactly(body);
    out := "";
    var i: nat := 0;
    ghost var n: nat := 0;
    while i < |body|
      invariant n <= |body| + 1 && MachineRun(body, n) == At(i, out)
      decreases |body| + 1 - n
    {
      var m := LoopTurn(body, i, out);
      n := n + 1;
      if m.Halt? {
        out := m.out;
        break;
      }
      out, i := m.out, m.i;
    }
    if MachineRun(body, n).At? {
      HaltsAtEnd(body, At(i, out));
      n := n + 1;
    }
    HaltsOnce(body, n, |body| + 1);
    if |body| < WORD && NoWrap(body, 0) {
      HaltIsDechunk(body, n);
    }
  }

  /** The body of the loop. */
  method LoopTurn(body: string, i: nat, out: string) returns (m: Machine)
    requires i < |body|
    ensures m == MachineStep(body, At(i, out))
  {
    hide Search, HexSpan, WrappedSize;
    var eol := Find(body, "\r\n", i);
    if eol.None? { return Halt(out); }
    var len, any := ReadSize(body, i, eol.value);
    if !any || len == 0 { return Halt(out); }
    var start := eol.value + 2;
    if (start + len) % WORD > |body| { return Halt(out); }
    m := At((start + len + 2) % WORD, out + body[start..Min(start + len, |body|)]);
  }

  // ----- responses

  datatype HttpResponse = HttpResponse(ok: bool, status: int, body: string)

  function LowerAll(s: string): (r: string)
    ensures |r| == |s|
  {
    if s == "" then "" else [Lower(s[0])] + LowerAll(s[1..])
  }

  /** Headers and body: apart at the first blank line, with or without carriage returns. */
  function SplitHead(raw: string): Split {
    var a := Search(raw, "\r\n\r\n");
    if a.Some? then Split(a.value.before, a.value.at[4..])
    else
      var b := Search(raw, "\n\n");
      if b.Some? then Split(b.value.before, b.value.at[2..]) else Split(raw, "")
  }

  predicate IsChunked(head: string) {
    Search(LowerAll(head), "transfer-encoding: chunked").Some?
  }

  const CODING: string := "transfer-encoding: chunked"

  lemma {:induction false} LowerAllAt(s: string)
    ensures forall i :: 0 <= i < |s| ==> LowerAll(s)[i] == Lower(s[i])
  {
    hide Lower;
    if s != "" {
      LowerAllAt(s[1..]);
    }
  }

  /** The coding stands at this position of the head, its letters in any case. */
  ghost predicate NamesCoding(head: string, i: nat) {
    i + |CODING| <= |head| && SameTitle(head[i..i + |CODING|], CODING)
  }

  lemma CodingIsLower(k: nat)
    requires k < |CODING|
    ensures Lower(CODING[k]) == CODING[k]
  {
    assert forall i :: 0 <= i < |CODING| ==> !('A' <= CODING[i] <= 'Z');
  }

  lemma CodingAt(head: string, i: nat)
    requires i <= |head|
    ensures CODING <= LowerAll(head)[i..] <==> NamesCoding(head, i)
  {
    LowerAllAt(head);
    var low := LowerAll(head);
    hide Lower, LowerAll, SameTitle, IEquals;
    if i + |CODING| <= |head| {
      var part := head[i..i + |CODING|];
      IEqualsIs(part, CODING);
      PartEquals(head, low, i, part);
    }
  }

  lemma PartEquals(head: string, low: string, i: nat, part: string)
    requires i + |CODING| <= |head| && |low| == |head| && part == head[i..i + |CODING|]
    requires forall k :: 0 <= k < |head| ==> low[k] == Lower(head[k])
    ensures CODING <= low[i..] <==> IEquals(part, CODING)
  {
    hide Lower;
    forall k | 0 <= k < |CODING| ensures Lower(CODING[k]) == CODING[k] && low[i..][k] == Lower(part[k]) {
      CodingIsLower(k);
    }
    if IEquals(part, CODING) {
      assert low[i..][..|CODING|] == CODING;
    }
  }

  /** A response is chunked exactly if its head names the coding somewhere, in any letter case. */
  lemma ChunkedIs(head: string)
    ensures IsChunked(head) <==> exists i: nat :: NamesCoding(head, i)
  {
    var low := LowerAll(head);
    SearchIs(low, CODING);
    hide Search, LowerAll, NamesCoding;
    if i: nat :| NamesCoding(head, i) {
      assert i <= |head| by { CodingWithin(head, i); }
      CodingAt(head, i);
      assert OccursAt(low, CODING, i);
    }
    if IsChunked(head) {
      var i := |Search(low, CODING).value.before|;
      CodingAt(head, i);
    }
  }

  lemma CodingWithin(head: string, i: nat)
    requires NamesCoding(head, i)
    ensures i <= |head|
  {
  }

  function ParseHttp(raw: string): HttpResponse {
    var sp := Search(raw, " ");
    if !("HTTP/" <= raw) || sp.None? then HttpResponse(false, 0, "")
    else
      var h := SplitHead(raw);
      HttpResponse(true, Atoi(sp.value.at[1..]), if IsChunked(h.before) then Dechunk(h.at) else h.at)
  }

  lemma {:induction false} SearchExtends(s: string, t: string, needle: string)
    requires Search(s, needle).Some?
    ensures Search(s + t, needle) == Some(Split(Search(s, needle).value.before, Search(s, needle).value.at + t))
  {
    if needle <= s {
      assert needle <= s + t;
    } else {
      SearchExtends(s[1..], t, needle);
      assert (s + t)[1..] == s[1..] + t;
      NotEarlier(s, t, needle);
    }
  }

  /** Text added at the end does not make an earlier occurrence. */
  lemma NotEarlier(s: string, t: string, needle: string)
    requires !(needle <= s) && s != "" && Search(s[1..], needle).Some?
    ensures !(needle <= s + t)
  {
    assert |needle| <= |s|;
    assert (s + t)[..|needle|] == s[..|needle|];
  }

  /** The blank lines at which the source splits. */
  const CRLF_LINE: string := "\r\n\r\n"
  const LF_LINE: string := "\n\n"

  /** A head with a status line, and the blank line that follows it is the first of its kind. */
  ghost predicate HeadOk(head: string, line: string) {
    && (line == CRLF_LINE || line == LF_LINE)
    && "HTTP/" <= head && Search(head, " ").Some?
    && Search(head + line, line) == Some(Split(head, line))
  }

  /** The head is found. Lines that end in LF alone are looked for only when CR LF CR LF occurs nowhere in
      the response, its body included. */
  ghost predicate HeadFound(head: string, line: string, body: string) {
    HeadOk(head, line) && (line == LF_LINE ==> Search(head + line + body, CRLF_LINE).None?)
  }

  /** A response with a chunked body, the header in any case, yields the joined data. */
  lemma ChunkedResponse(head: string, line: string, cs: seq<Coded>, last: string)
    requires HeadFound(head, line, ChunksThen(cs, last)) && IsChunked(head) && AllCodedOk(cs) && IsLast(last)
    ensures
      var r := ParseHttp(head + line + ChunksThen(cs, last));
      r.ok && r.body == Join(cs) && r.status == Atoi(Search(head, " ").value.at[1..] + line + ChunksThen(cs, last))
  {
    var body := ChunksThen(cs, last);
    DechunkEncoded(cs, last);
    ResponseParts(head, line, body);
    hide Search, Dechunk, SplitHead, ChunksThen, Atoi;
  }

  lemma ResponseParts(head: string, line: string, body: string)
    requires HeadFound(head, line, body)
    ensures
      var raw := head + line + body;
      && "HTTP/" <= raw && SplitHead(raw) == Split(head, body)
      && Search(raw, " ").Some?
      && Search(raw, " ").value.at[1..] == Search(head, " ").value.at[1..] + line + body
  {
    hide Search;
    var raw := head + line + body;
    SearchExtends(head + line, body, line);
    assert (line + body)[|line|..] == body;
    SearchExtends(head, line + body, " ");
    assert raw == head + (line + body);
    SearchSplit(head, " ");
    var at := Search(head, " ").value.at;
    assert (at + (line + body))[1..] == at[1..] + line + body;
    assert raw[..5] == head[..5];
  }

  /** A response that is not chunked yields its body as it is. */
  lemma PlainResponse(head: string, line: string, body: string)
    requires HeadFound(head, line, body) && !IsChunked(head)
    ensures var r := ParseHttp(head + line + body); r.ok && r.body == body
  {
    ResponseParts(head, line, body);
    hide Search, SplitHead;
  }

  /** What does not start like a response, or has no space, is none. */
  lemma NoResponse(raw: string)
    requires !("HTTP/" <= raw) || forall i :: 0 <= i < |raw| ==> raw[i] != ' '
    ensures ParseHttp(raw) == HttpResponse(false, 0, "")
  {
    SearchIs(raw, " ");
    hide Search;
    if Search(raw, " ").Some? {
      var r := Search(raw, " ").value;
      assert raw[|r.before|] == ' ';
    }
  }

  /** A response without a blank line has no body. */
  lemma BareResponse(raw: string)
    requires "HTTP/" <= raw && Search(raw, " ").Some? && Search(raw, CRLF_LINE).None? && Search(raw, LF_LINE).None?
    ensures ParseHttp(raw) == HttpResponse(true, Atoi(Search(raw, " ").value.at[1..]), "")
  {
    hide Search, Atoi;
    DechunkNothing();
  }

  /** A head with LF line ends is split from its body if and only if CR LF CR LF does not occur in the
      response, so not when a chunked body ends in the usual way. */
  lemma LfHeadSplit(head: string, body: string)
    requires HeadOk(head, LF_LINE)
    ensures SplitHead(head + LF_LINE + body) == Split(head, body) <==> Search(head + LF_LINE + body, CRLF_LINE).None?
  {
    hide Search;
    var raw := head + LF_LINE + body;
    if Search(raw, CRLF_LINE).None? {
      ResponseParts(head, LF_LINE, body);
    } else {
      SearchSplit(raw, CRLF_LINE);
      var x := Search(raw, CRLF_LINE).value;
      assert |x.before| + |x.at| == |raw| == |head| + 2 + |body|;
      assert |x.at[4..]| == |x.at| - 4;
    }
  }

  /** std::transform with tolower, on the header buffer. */
  method LowerLoop(s: string) returns (r: string)
    ensures r == LowerAll(s)
  {
    r := "";
    assert s[0..] == s;
    for i := 0 to |s|
      invariant LowerAll(s) == r + LowerAll(s[i..])
    {
      assert s[i..][1..] == s[i + 1..];
      r := r + [Lower(s[i])];
    }
    assert r + "" == r;
  }

  method ParseHttpResponse(raw: string) returns (r: HttpResponse)
    requires var h := SplitHead(raw); IsChunked(h.before) ==> Terminates(h.at)
    ensures |raw| < WORD && NoWrap(SplitHead(raw).at, 0) ==> r == ParseHttp(raw)
    ensures r.ok == ParseHttp(raw).ok && r.status == ParseHttp(raw).status
    ensures !IsChunked(SplitHead(raw).before) ==> r == ParseHttp(raw)
    ensures r.ok && IsChunked(SplitHead(raw).before) ==>
              var body := SplitHead(raw).at; MachineRun(body, |body| + 1) == Halt(r.body)
  {
    hide Search, Atoi, Dechunk, NoWrap, Terminates, MachineRun;
    r := HttpResponse(false, 0, "");
    if !("HTTP/" <= raw) { return; }
    assert raw[0..] == raw;
    var sp := Find(raw, " ", 0);
    if sp.None? { return; }
    assert raw[sp.value..][1..] == raw[sp.value + 1..];
    var status := Atoi(raw[sp.value + 1..]);
    var hdrEnd, bodyAt := |raw|, |raw|;
    var sep := Find(raw, "\r\n\r\n", 0);
    if sep.Some? {
      hdrEnd, bodyAt := sep.value, sep.value + 4;
      assert raw[sep.value..][4..] == raw[sep.value + 4..];
    } else {
      sep := Find(raw, "\n\n", 0);
      if sep.Some? {
        hdrEnd, bodyAt := sep.value, sep.value + 2;
        assert raw[sep.value..][2..] == raw[sep.value + 2..];
      }
    }
    assert raw[..hdrEnd] == raw[0..hdrEnd];
    assert SplitHead(raw) == Split(raw[..hdrEnd], raw[bodyAt..]);
    var headers := LowerLoop(raw[..hdrEnd]);
    var body := raw[bodyAt..];
    assert headers[0..] == headers;
    var te := Find(headers, "transfer-encoding: chunked", 0);
    if te.Some? {
      body := DechunkLoop(body);
    }
    r := HttpResponse(true, status, body);
  }
}
