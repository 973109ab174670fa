/** The length-prefixed frames of src/ipc/frame.cpp and what a reader makes of any byte stream. */
module Frame {
  import opened Common

  const MAX_FRAME: nat := 8 * 1024 * 1024

  /** Four bytes, least significant first. */
  function Header(n: nat): (h: string)
    requires n <= MAX_FRAME
    ensures |h| == 4 && IsBytes(h)
  {
    [(n % 256) as char, (n / 256 % 256) as char, (n / 65536 % 256) as char, (n / 16777216 % 256) as char]
  }

  function HeaderValue(h: string): nat
    requires |h| == 4
  {
    h[0] as int + 256 * h[1] as int + 65536 * h[2] as int + 16777216 * h[3] as int
  }

  /** A number from its bytes, the least significant first. */
  ghost function LittleEndian(h: string): nat {
    if h == "" then 0 else h[0] as int + 256 * LittleEndian(h[1..])
  }

  lemma HeaderIsLittleEndian(h: string)
    requires |h| == 4
    ensures HeaderValue(h) == LittleEndian(h)
  {
    assert h[1..][1..] == h[2..] && h[2..][1..] == h[3..] && h[3..][1..] == "";
    assert LittleEndian(h[3..]) == h[3] as int;
    assert LittleEndian(h[2..]) == h[2] as int + 256 * h[3] as int;
  }

  /** Up to 8 MiB, four bytes hold the length, the least significant first. */
  lemma HeaderRoundTrip(n: nat)
    requires n <= 0x80_0000
    ensures |Header(n)| == 4 && IsBytes(Header(n)) && LittleEndian(Header(n)) == n
    ensures HeaderValue(Header(n)) == n
  {
    HeaderIsLittleEndian(Header(n));
    var a, b, c := n / 256, n / 65536, n / 16777216;
    assert n == 256 * a + n % 256;
    assert a == 256 * b + a % 256;
    assert b == 256 * c + b % 256;
  }

  function Encode(p: string): (f: string)
    requires |p| <= MAX_FRAME
    ensures |f| == 4 + |p|
  {
    Header(|p|) + p
  }

  ghost predicate Fit(ps: seq<string>) {
    forall i :: 0 <= i < |ps| ==> |ps[i]| <= MAX_FRAME
  }

  function EncodeAll(ps: seq<string>): string
    requires Fit(ps)
  {
    if ps == [] then "" else Encode(ps[0]) + EncodeAll(ps[1..])
  }

  lemma {:induction false} EncodeAllConcat(ps: seq<string>, qs: seq<string>)
    requires Fit(ps) && Fit(qs)
    ensures Fit(ps + qs) && EncodeAll(ps + qs) == EncodeAll(ps) + EncodeAll(qs)
  {
    hide Encode;
    if ps == [] {
      assert ps + qs == qs;
    } else {
      EncodeAllConcat(ps[1..], qs);
      assert (ps + qs)[1..] == ps[1..] + qs && (ps + qs)[0] == ps[0];
      assert Encode(ps[0]) + (EncodeAll(ps[1..]) + EncodeAll(qs)) == EncodeAll(ps) + EncodeAll(qs);
    }
  }

  // ----- reading

  datatype Read = Got(payload: string, rest: string) | Eof | Bad(err: string)

  const TOO_BIG := "incoming frame exceeds 8 MiB cap"
  const TRUNCATED := "truncated frame body"

  /** The next frame of a stream; a header cut short counts as its end. */
  function Next(s: string): (r: Read)
    ensures r.Got? ==> |r.rest| < |s|
  {
    if |s| < 4 then Eof
    else
      var n := HeaderValue(s[..4]);
      if n > MAX_FRAME then Bad(TOO_BIG)
      else if |s| - 4 < n then Bad(TRUNCATED)
      else Got(s[4..4 + n], s[4 + n..])
  }

  /** What a header says decides, whatever wrote it: more than 8 MiB is refused, less than it says is an
      error, and otherwise the payload follows. */
  lemma NextByHeader(s: string)
    requires |s| >= 4
    ensures
      var n := LittleEndian(s[..4]);
      && (n > 0x80_0000 ==> Next(s) == Bad(TOO_BIG))
      && (n <= 0x80_0000 && |s| < 4 + n ==> Next(s) == Bad(TRUNCATED))
      && (n <= 0x80_0000 && |s| >= 4 + n ==> exists p, rest :: Next(s) == Got(p, rest) && |p| == n && s == s[..4] + p + rest)
  {
    HeaderIsLittleEndian(s[..4]);
    hide HeaderValue, LittleEndian;
    var n := HeaderValue(s[..4]);
    if n <= 0x80_0000 && |s| >= 4 + n {
      assert s == s[..4] + s[4..4 + n] + s[4 + n..];
      assert Next(s) == Got(s[4..4 + n], s[4 + n..]);
    }
  }

  datatype Stream = Stream(frames: seq<string>, err: Option<string>)

  /** All frames up to the end of the stream, and the error that ended it, if any. */
  function Decode(s: string): Stream
    decreases |s|
  {
    match Next(s)
    case Eof => Stream([], None)
    case Bad(e) => Stream([], Some(e))
    case Got(p, rest) => var d := Decode(rest); Stream([p] + d.frames, d.err)
  }

  lemma NextOfEncoded(p: string, rest: string)
    requires |p| <= MAX_FRAME
    ensures Next(Encode(p) + rest) == Got(p, rest)
  {
    HeaderRoundTrip(|p|);
    hide Header, HeaderValue;
    var s := Encode(p) + rest;
    assert s[..4] == Header(|p|);
    assert s[4..4 + |p|] == p;
    assert s[4 + |p|..] == rest;
  }

  lemma {:induction false} DecodeThen(ps: seq<string>, rest: string)
    requires Fit(ps)
    ensures Decode(EncodeAll(ps) + rest) == Stream(ps + Decode(rest).frames, Decode(rest).err)
  {
    hide Encode, Next;
    if ps == [] {
      assert EncodeAll(ps) + rest == rest;
      assert ps + Decode(rest).frames == Decode(rest).frames;
    } else {
      var tail := EncodeAll(ps[1..]) + rest;
      assert EncodeAll(ps) + rest == Encode(ps[0]) + tail;
      NextOfEncoded(ps[0], tail);
      DecodeThen(ps[1..], rest);
      assert [ps[0]] + (ps[1..] + Decode(rest).frames) == ps + Decode(rest).frames;
    }
  }

  /** Written frames read back as they were, then a clean end. */
  lemma DecodeEncoded(ps: seq<string>)
    requires Fit(ps)
    ensures Decode(EncodeAll(ps)) == Stream(ps, None)
  {
    DecodeThen(ps, "");
    assert EncodeAll(ps) + "" == EncodeAll(ps);
    assert ps + [] == ps;
  }

  /** Frame sequences are uniquely decodable. */
  lemma EncodeInjective(ps: seq<string>, qs: seq<string>)
    requires Fit(ps) && Fit(qs) && EncodeAll(ps) == EncodeAll(qs)
    ensures ps == qs
  {
    DecodeEncoded(ps);
    DecodeEncoded(qs);
  }

  /** The payloads before the first that does not fit. */
  function Leading(ps: seq<string>): (r: seq<string>)
    ensures Fit(r) && |r| <= |ps|
  {
    if ps == [] || |ps[0]| > MAX_FRAME then [] else [ps[0]] + Leading(ps[1..])
  }

  lemma {:induction false} LeadingThen(ps: seq<string>, qs: seq<string>)
    requires Fit(ps)
    ensures Leading(ps + qs) == ps + Leading(qs)
  {
    if ps == [] {
      assert ps + qs == qs;
    } else {
      assert (ps + qs)[1..] == ps[1..] + qs && (ps + qs)[0] == ps[0];
      LeadingThen(ps[1..], qs);
      assert ps == [ps[0]] + ps[1..];
    }
  }

  lemma {:induction false} LeadingIsPrefix(ps: seq<string>)
    ensures Leading(ps) == ps[..|Leading(ps)|]
    ensures |Leading(ps)| < |ps| ==> |ps[|Leading(ps)|]| > MAX_FRAME
  {
    if ps != [] && |ps[0]| <= MAX_FRAME {
      LeadingIsPrefix(ps[1..]);
      var n := |Leading(ps)|;
      assert ps[..n] == [ps[0]] + ps[1..][..n - 1];
    }
  }

  /** What a peer that takes so many bytes gets of them. */
  function Taken(bytes: string, room: nat): string {
    if room < |bytes| then bytes[..room] else bytes
  }

  /** Payloads written one after the other, until one does not fit or the peer takes no more. */
  function Delivered(ps: seq<string>, room: nat): string {
    Taken(EncodeAll(Leading(ps)), room)
  }

  lemma DeliveredAll(ps: seq<string>, room: nat)
    requires Fit(ps) && |EncodeAll(ps)| <= room
    ensures Delivered(ps, room) == EncodeAll(ps)
  {
    LeadingThen(ps, []);
    assert ps + [] == ps;
  }

  /** The write of `p`, after `ps` went out, stops the rest. */
  lemma DeliveredUpTo(ps: seq<string>, p: string, qs: seq<string>, room: nat)
    requires Fit(ps) && |EncodeAll(ps)| <= room
    requires |p| > MAX_FRAME || |EncodeAll(ps)| + 4 + |p| > room
    ensures Delivered(ps + ([p] + qs), room)
         == EncodeAll(ps) + (if |p| > MAX_FRAME then "" else Encode(p)[..room - |EncodeAll(ps)|])
    ensures !(Fit(ps + ([p] + qs)) && |EncodeAll(ps + ([p] + qs))| <= room)
  {
    hide Encode;
    var more := [p] + qs;
    assert more[1..] == qs && (ps + more)[|ps|] == p;
    LeadingThen(ps, more);
    var a := EncodeAll(ps);
    if |p| > MAX_FRAME {
      assert ps + [] == ps && a + "" == a;
    } else {
      var lead := [p] + Leading(qs);
      assert lead[1..] == Leading(qs);
      EncodeAllConcat(ps, lead);
      TakenWithin(a, Encode(p), EncodeAll(Leading(qs)), room);
      if Fit(ps + more) {
        FitParts(ps, more);
        EncodeAllConcat(ps, more);
      }
    }
  }

  lemma FitParts(ps: seq<string>, qs: seq<string>)
    requires Fit(ps + qs)
    ensures Fit(ps) && Fit(qs)
  {
    assert forall i :: 0 <= i < |ps| ==> ps[i] == (ps + qs)[i];
    assert forall i :: 0 <= i < |qs| ==> qs[i] == (ps + qs)[|ps| + i];
  }

  lemma TakenWithin(a: string, b: string, c: string, room: nat)
    requires |a| <= room < |a| + |b|
    ensures Taken(a + (b + c), room) == a + b[..room - |a|]
  {
  }

  /** The first payload, and then the others in the room that is left. */
  lemma DeliveredThen(p: string, qs: seq<string>, room: nat)
    requires |p| <= MAX_FRAME && 4 + |p| <= room
    ensures Delivered([p] + qs, room) == Encode(p) + Delivered(qs, room - 4 - |p|)
  {
    hide Encode;
    var all := [p] + qs;
    assert all[1..] == qs && Leading(all)[1..] == Leading(qs);
  }

  /** Whatever the peer takes, it decodes a first part of the payloads. */
  lemma DeliveredIsPrefix(ps: seq<string>, room: nat)
    ensures Decode(Delivered(ps, room)).frames <= ps
  {
    hide Decode, EncodeAll;
    var lead := Leading(ps);
    LeadingIsPrefix(ps);
    var k := if room < |EncodeAll(lead)| then room else |EncodeAll(lead)|;
    assert Delivered(ps, room) == EncodeAll(lead)[..k];
    DecodeCut(lead, k);
  }

  /** How many frames lie wholly within the first `k` bytes. */
  function WholeFrames(ps: seq<string>, k: nat): (m: nat)
    requires Fit(ps)
    ensures m <= |ps|
  {
    if ps == [] || k < 4 + |ps[0]| then 0 else 1 + WholeFrames(ps[1..], k - 4 - |ps[0]|)
  }

  /** The bytes after the last of them. */
  function Leftover(ps: seq<string>, k: nat): nat
    requires Fit(ps)
  {
    if ps == [] || k < 4 + |ps[0]| then k else Leftover(ps[1..], k - 4 - |ps[0]|)
  }

  /** `WholeFrames` and `Leftover` are what they say. */
  lemma {:induction false} CutPosition(ps: seq<string>, k: nat)
    requires Fit(ps) && k <= |EncodeAll(ps)|
    ensures
      var m := WholeFrames(ps, k);
      && Fit(ps[..m]) && k == |EncodeAll(ps[..m])| + Leftover(ps, k)
      && (m < |ps| ==> Leftover(ps, k) < 4 + |ps[m]|)
      && (m == |ps| ==> Leftover(ps, k) == 0)
  {
    hide Encode;
    if ps != [] && k >= 4 + |ps[0]| {
      CutPosition(ps[1..], k - 4 - |ps[0]|);
      var m := WholeFrames(ps, k);
      assert ps[..m][1..] == ps[1..][..m - 1];
    }
  }

  /** Cut anywhere, the stream reads as the whole frames before the cut: a clean end when fewer than
      four bytes of the next one are there, an error once its header is complete. */
  lemma {:induction false} DecodeCut(ps: seq<string>, k: nat)
    requires Fit(ps) && k <= |EncodeAll(ps)|
    ensures Decode(EncodeAll(ps)[..k])
         == Stream(ps[..WholeFrames(ps, k)], if Leftover(ps, k) < 4 then None else Some(TRUNCATED))
  {
    hide Encode, Decode;
    if ps == [] {
      DecodeNothing();
      assert EncodeAll(ps)[..k] == "";
    } else {
      var tail := EncodeAll(ps[1..]);
      if k < 4 + |ps[0]| {
        CutInFirst(ps[0], tail, k);
      } else {
        var j := k - 4 - |ps[0]|;
        DecodeCut(ps[1..], j);
        DecodeFirst(ps[0], tail[..j]);
        CutInTail(Encode(ps[0]), tail, k);
        ConsPrefix(ps, WholeFrames(ps, k));
      }
    }
  }

  lemma DecodeNothing()
    ensures Decode("") == Stream([], None)
  {
  }

  lemma CutInTail(a: string, b: string, k: nat)
    requires |a| <= k <= |a| + |b|
    ensures (a + b)[..k] == a + b[..k - |a|]
  {
  }

  lemma ConsPrefix(ps: seq<string>, m: nat)
    requires 0 < m <= |ps|
    ensures ps[..m] == [ps[0]] + ps[1..][..m - 1]
  {
  }

  lemma DecodeFirst(p: string, rest: string)
    requires |p| <= MAX_FRAME
    ensures Decode(Encode(p) + rest) == Stream([p] + Decode(rest).frames, Decode(rest).err)
  {
    hide Encode, Next;
    NextOfEncoded(p, rest);
  }

  lemma CutInFirst(p: string, tail: string, k: nat)
    requires |p| <= MAX_FRAME && k < 4 + |p|
    ensures Decode((Encode(p) + tail)[..k]) == Stream([], if k < 4 then None else Some(TRUNCATED))
  {
    HeaderRoundTrip(|p|);
    hide Header, HeaderValue;
    var s := (Encode(p) + tail)[..k];
    if k >= 4 {
      assert s[..4] == Header(|p|);
    }
  }

  // ----- the transport and the frame functions as they run

  /** One end of the pipe: what is still to be read, what was written, and how many more bytes the
      peer takes before the connection breaks. */
  class Transport {
    var input: string
    var output: string
    var room: nat

    constructor (bytes: string, capacity: nat)
      ensures input == bytes && output == "" && room == capacity
    {
      input := bytes;
      output := "";
      room := capacity;
    }

    /** All `n` bytes or a failure, after which nothing is left. */
    method ReadExact(n: nat) returns (ok: bool, buf: string)
      modifies this`input
      ensures ok <==> n <= |old(input)|
      ensures ok ==> buf == old(input)[..n] && input == old(input)[n..]
      ensures !ok ==> input == ""
    {
      ok := n <= |input|;
      if ok {
        buf := input[..n];
        input := input[n..];
      } else {
        buf := "";
        input := "";
      }
    }

    /** All bytes, or as many as the peer still took. */
    method WriteAll(data: string) returns (ok: bool)
      modifies this`output, this`room
      ensures ok <==> |data| <= old(room)
      ensures ok ==> output == old(output) + data && room == old(room) - |data|
      ensures !ok ==> output == old(output) + data[..old(room)] && room == 0
    {
      ok := |data| <= room;
      if ok {
        output := output + data;
        room := room - |data|;
      } else {
        output := output + data[..room];
        room := 0;
      }
    }
  }

  /** Writes a whole frame or reports why not; an oversized payload writes nothing. */
  method WriteFrame(t: Transport, payload: string) returns (err: Option<string>)
    modifies t`output, t`room
    ensures |payload| > 0x80_0000 ==> err.Some? && t.output == old(t.output) && t.room == old(t.room)
    ensures err.None? <==> |payload| <= 0x80_0000 && 4 + |payload| <= old(t.room)
    ensures err.None? ==> t.output == old(t.output) + Encode(payload) && t.room == old(t.room) - 4 - |payload|
    ensures |payload| <= 0x80_0000 && err.Some? ==>
      t.room == 0 && t.output == old(t.output) + Encode(payload)[..old(t.room)]
  {
    if |payload| > MAX_FRAME {
      return Some("frame exceeds 8 MiB cap");
    }
    var n := |payload|;
    assert Encode(payload)[..4] == Header(n);
    var ok := t.WriteAll(Header(n));
    if !ok {
      assert Encode(payload)[..old(t.room)] == Header(n)[..old(t.room)];
      return Some("write frame header failed");
    }
    if n > 0 {
      ok := t.WriteAll(payload);
      if !ok {
        assert Encode(payload)[..old(t.room)] == Header(n) + payload[..old(t.room) - 4];
        return Some("write frame body failed");
      }
    }
    return None;
  }

  /** The next frame; on failure nothing is left to read, and an error only says it was not the end. */
  method ReadFrame(t: Transport) returns (ok: bool, out: string, err: Option<string>)
    modifies t`input
    ensures match Next(old(t.input))
            case Got(p, rest) => ok && out == p && t.input == rest && err.None?
            case Eof => !ok && err.None?
            case Bad(e) => !ok && err == Some(e)
  {
    out, err := "", None;
    var hdr;
    ok, hdr := t.ReadExact(4);
    if !ok { return; }
    var n := HeaderValue(hdr);
    if n > MAX_FRAME {
      return false, "", Some(TOO_BIG);
    }
    if n > 0 {
      ok, out := t.ReadExact(n);
      if !ok {
        return false, "", Some(TRUNCATED);
      }
      assert old(t.input)[4..][..n] == old(t.input)[4..4 + n];
    }
  }
}
