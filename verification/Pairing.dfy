/** The five-stage pairing handshake of src/net/nv_pairing.cpp against any transport. */
module Pairing {
  import opened Common
  import opened Xml

  type Bytes = s: string | IsBytes(s) witness ""

  /** OpenSSL as abstract functions on byte strings. */
  datatype Crypto = Crypto(
    sha256: Bytes -> Bytes,
    sha1: Bytes -> Bytes,
    enc: (Bytes, Bytes) -> Bytes,
    dec: (Bytes, Bytes) -> Bytes,
    certSignature: Bytes -> Bytes,
    verify: (Bytes, Bytes, Bytes) -> bool,
    sign: (Bytes, Bytes) -> Bytes)

  datatype Identity = Identity(cert: Bytes, key: Bytes)

  datatype Request = Request(https: bool, command: string, args: string)

  datatype PairState = Paired | Failed | PinWrong | AlreadyInProgress

  datatype PairResult = PairResult(state: PairState, cert: string)

  /** What the client does to the outside: requests with the replies they got, and the pin. */
  datatype Event = Sent(req: Request, reply: string) | Pinned(cert: string)

  /** Everything the handshake depends on. The transport answers the last request of any history; the
      k-th random draw is `rnd(k)`. */
  datatype World = World(
    c: Crypto, env: seq<Request> -> string, rnd: nat -> Bytes, id: Identity, pin: Bytes, gen7: bool)

  // ----- pieces

  const PREFIX := "devicename=roth&updateState=1&"

  predicate PairedOk(xml: string) {
    xml != "" && XmlAttr(xml, "root", "status_code") == "200" && XmlText(xml, "paired") == "1"
  }

  function Hash(c: Crypto, gen7: bool, data: Bytes): Bytes {
    if gen7 then c.sha256(data) else c.sha1(data)
  }

  function HashLen(gen7: bool): nat {
    if gen7 then 32 else 20
  }

  /** The first 16 bytes of the salted PIN's hash, "" if there are not that many. */
  function DeriveKey(c: Crypto, gen7: bool, salt: Bytes, pin: Bytes): Bytes {
    var h := Hash(c, gen7, salt + pin);
    if |h| < 16 then "" else h[..16]
  }

  predicate Blocks(data: string, key: string) {
    |key| == 16 && data != "" && |data| % 16 == 0
  }

  function Encrypt(c: Crypto, data: Bytes, key: Bytes): Bytes {
    if Blocks(data, key) then c.enc(data, key) else ""
  }

  function Decrypt(c: Crypto, data: Bytes, key: Bytes): Bytes {
    if Blocks(data, key) then c.dec(data, key) else ""
  }

  function Zeros(n: nat): (z: Bytes)
    ensures |z| == n
  {
    seq(n, _ => '\0')
  }

  /** std::string::resize(n, '\0'). */
  function Resize(s: Bytes, n: nat): (r: Bytes)
    ensures |r| == n
  {
    if |s| >= n then s[..n] else s + Zeros(n - |s|)
  }

  function Slice(s: Bytes, i: nat, j: nat): Bytes
    requires i <= j <= |s|
  {
    s[i..j]
  }

  function Concat3(x: Bytes, y: Bytes, z: Bytes): Bytes {
    x + y + z
  }

  // ----- the run, as a function of the world

  function Key(w: World): Bytes {
    DeriveKey(w.c, w.gen7, w.rnd(0), w.pin)
  }

  function PairRequest(https: bool, args: string): Request {
    Request(https, "pair", PREFIX + args)
  }

  const UNPAIR := Request(false, "unpair", "")

  function Req1(w: World): Request {
    PairRequest(false, "phrase=getservercert&salt=" + (ToHex(w.rnd(0)) + ("&clientcert=" + ToHex(w.id.cert))))
  }

  function Rep1(w: World): string { w.env([Req1(w)]) }

  function ServerCert(w: World): Bytes { XmlTextHex(Rep1(w), "plaincert") }

  function Req2(w: World): Request {
    PairRequest(false, "clientchallenge=" + ToHex(Encrypt(w.c, w.rnd(1), Key(w))))
  }

  function Rep2(w: World): string { w.env([Req1(w), Req2(w)]) }

  function ChallengeResp(w: World): Bytes {
    Decrypt(w.c, XmlTextHex(Rep2(w), "challengeresponse"), Key(w))
  }

  predicate LongEnough(w: World) {
    |ChallengeResp(w)| >= HashLen(w.gen7) + 16
  }

  function ServerResponse(w: World): Bytes
    requires LongEnough(w)
  {
    Slice(ChallengeResp(w), 0, HashLen(w.gen7))
  }

  function ServerChallenge(w: World): Bytes
    requires LongEnough(w)
  {
    Slice(ChallengeResp(w), HashLen(w.gen7), HashLen(w.gen7) + 16)
  }

  /** The client's hash over the server's challenge, padded to two AES blocks. */
  function ClientHash(w: World): Bytes
    requires LongEnough(w)
  {
    Resize(Hash(w.c, w.gen7, Concat3(ServerChallenge(w), w.c.certSignature(w.id.cert), w.rnd(2))), 32)
  }

  function Req3(w: World): Request
    requires LongEnough(w)
  {
    PairRequest(false, "serverchallengeresp=" + ToHex(Encrypt(w.c, ClientHash(w), Key(w))))
  }

  function Rep3(w: World): string
    requires LongEnough(w)
  {
    w.env([Req1(w), Req2(w), Req3(w)])
  }

  function PairingSecret(w: World): Bytes
    requires LongEnough(w)
  {
    XmlTextHex(Rep3(w), "pairingsecret")
  }

  function ServerSecret(w: World): Bytes
    requires LongEnough(w) && |PairingSecret(w)| > 16
  {
    PairingSecret(w)[..16]
  }

  /** The server signed its secret with the certificate it presented. */
  predicate SignatureOk(w: World)
    requires LongEnough(w) && |PairingSecret(w)| > 16
  {
    w.c.verify(ServerSecret(w), PairingSecret(w)[16..], ServerCert(w))
  }

  /** Its hashed response shows that it derived the same key from the PIN. */
  predicate PinOk(w: World)
    requires LongEnough(w) && |PairingSecret(w)| > 16
  {
    Hash(w.c, w.gen7, Concat3(w.rnd(1), w.c.certSignature(ServerCert(w)), ServerSecret(w))) == ServerResponse(w)
  }

  function Req4(w: World): Request {
    PairRequest(false, "clientpairingsecret=" + ToHex(w.rnd(2) + w.c.sign(w.rnd(2), w.id.key)))
  }

  function Rep4(w: World): string
    requires LongEnough(w)
  {
    w.env([Req1(w), Req2(w), Req3(w), Req4(w)])
  }

  function Req5(w: World): Request {
    PairRequest(true, "phrase=pairchallenge")
  }

  function Rep5(w: World): string
    requires LongEnough(w)
  {
    w.env([Req1(w), Req2(w), Req3(w), Req4(w), Req5(w)])
  }

  // ----- the decision list

  datatype Run = Run(result: PairResult, trace: seq<Event>)

  function Requests(tr: seq<Event>): seq<Request> {
    if tr == [] then []
    else
      var e := tr[|tr| - 1];
      Requests(tr[..|tr| - 1]) + (if e.Sent? then [e.req] else [])
  }

  /** Give up after the exchanges in `tr`, telling the server to drop the pairing. */
  function GiveUp(w: World, state: PairState, tr: seq<Event>): Run {
    Run(PairResult(state, ""), tr + [Sent(UNPAIR, w.env(Requests(tr) + [UNPAIR]))])
  }

  function Trace1(w: World): seq<Event> { [Sent(Req1(w), Rep1(w))] }

  function Trace2(w: World): seq<Event> { Trace1(w) + [Pinned(ServerCert(w)), Sent(Req2(w), Rep2(w))] }

  function Trace3(w: World): seq<Event>
    requires LongEnough(w)
  {
    Trace2(w) + [Sent(Req3(w), Rep3(w))]
  }

  function Trace4(w: World): seq<Event>
    requires LongEnough(w)
  {
    Trace3(w) + [Sent(Req4(w), Rep4(w))]
  }

  function Trace5(w: World): seq<Event>
    requires LongEnough(w)
  {
    Trace4(w) + [Sent(Req5(w), Rep5(w))]
  }

  function Handshake(w: World): Run {
    if Key(w) == "" then Run(PairResult(Failed, ""), [])
    else if !PairedOk(Rep1(w)) then Run(PairResult(Failed, ""), Trace1(w))
    else if ServerCert(w) == "" then GiveUp(w, AlreadyInProgress, Trace1(w))
    else if !PairedOk(Rep2(w)) || !LongEnough(w) then GiveUp(w, Failed, Trace2(w))
    else if !PairedOk(Rep3(w)) || |PairingSecret(w)| <= 16 || !SignatureOk(w) then GiveUp(w, Failed, Trace3(w))
    else if !PinOk(w) then GiveUp(w, PinWrong, Trace3(w))
    else if !PairedOk(Rep4(w)) then GiveUp(w, Failed, Trace4(w))
    else if !PairedOk(Rep5(w)) then GiveUp(w, Failed, Trace5(w))
    else Run(PairResult(Paired, ServerCert(w)), Trace5(w))
  }

  lemma RequestsSnoc(tr: seq<Event>, e: Event)
    ensures Requests(tr + [e]) == Requests(tr) + (if e.Sent? then [e.req] else [])
  {
    assert (tr + [e])[..|tr|] == tr;
  }

  /** The requests of each stage. */
  lemma StageRequests(w: World)
    ensures Requests(Trace1(w)) == [Req1(w)]
    ensures Requests(Trace2(w)) == [Req1(w), Req2(w)]
    ensures LongEnough(w) ==>
      && Requests(Trace3(w)) == [Req1(w), Req2(w), Req3(w)]
      && Requests(Trace4(w)) == [Req1(w), Req2(w), Req3(w), Req4(w)]
      && Requests(Trace5(w)) == [Req1(w), Req2(w), Req3(w), Req4(w), Req5(w)]
  {
    hide Req1, Req2, Req3, Req4, Req5, Rep1, Rep2, Rep3, Rep4, Rep5, ServerCert, LongEnough;
    var t1 := Trace1(w);
    RequestsSnoc([], t1[0]);
    assert [] + [t1[0]] == t1;
    RequestsSnoc(t1, Pinned(ServerCert(w)));
    RequestsSnoc(t1 + [Pinned(ServerCert(w))], Sent(Req2(w), Rep2(w)));
    assert t1 + [Pinned(ServerCert(w))] + [Sent(Req2(w), Rep2(w))] == Trace2(w);
    if LongEnough(w) {
      RequestsSnoc(Trace2(w), Sent(Req3(w), Rep3(w)));
      RequestsSnoc(Trace3(w), Sent(Req4(w), Rep4(w)));
      RequestsSnoc(Trace4(w), Sent(Req5(w), Rep5(w)));
    }
  }

  // ----- soundness

  /** What a paired result is worth: five requests in their order, the last alone over HTTPS, the
      certificate pinned once, before it, and returned, every reply a success, both checks passed. */
  ghost predicate Sound(w: World, r: Run) {
    && LongEnough(w) && |PairingSecret(w)| > 16 && SignatureOk(w) && PinOk(w)
    && r.trace == [Sent(Req1(w), Rep1(w)), Pinned(r.result.cert), Sent(Req2(w), Rep2(w)),
                   Sent(Req3(w), Rep3(w)), Sent(Req4(w), Rep4(w)), Sent(Req5(w), Rep5(w))]
    && (forall i :: 0 <= i < |r.trace| && r.trace[i].Sent? ==>
          PairedOk(r.trace[i].reply) && (r.trace[i].req.https <==> i == 5))
    && r.result.cert == XmlTextHex(r.trace[0].reply, "plaincert") && r.result.cert != ""
  }

  lemma PairedIsSound(w: World)
    ensures Handshake(w).result.state == Paired <==> Sound(w, Handshake(w))
  {
    hide Rep1, Rep2, Rep3, Rep4, Rep5, PairedOk, LongEnough, SignatureOk, PinOk, PairingSecret, Key, XmlTextHex, ToHex, Encrypt;
    var t := Handshake(w).trace;
    if Handshake(w).result.state == Paired {
      assert t == [t[0], t[1], t[2], t[3], t[4], t[5]];
    }
    if Sound(w, Handshake(w)) {
      SoundReplies(w);
      SoundIsPaired(w);
    }
  }

  lemma SoundReplies(w: World)
    requires Sound(w, Handshake(w))
    ensures PairedOk(Rep1(w)) && PairedOk(Rep2(w)) && PairedOk(Rep3(w)) && PairedOk(Rep4(w)) && PairedOk(Rep5(w))
    ensures XmlTextHex(Rep1(w), "plaincert") != "" && |Handshake(w).trace| == 6
  {
    hide Handshake, PairedOk, Rep1, Rep2, Rep3, Rep4, Rep5, LongEnough, SignatureOk, PinOk, PairingSecret, XmlTextHex;
    var t := Handshake(w).trace;
    assert t[0].Sent? && t[2].Sent? && t[3].Sent? && t[4].Sent? && t[5].Sent?;
  }

  lemma SoundIsPaired(w: World)
    requires LongEnough(w) && |PairingSecret(w)| > 16 && SignatureOk(w) && PinOk(w)
    requires PairedOk(Rep1(w)) && PairedOk(Rep2(w)) && PairedOk(Rep3(w)) && PairedOk(Rep4(w)) && PairedOk(Rep5(w))
    requires XmlTextHex(Rep1(w), "plaincert") != "" && |Handshake(w).trace| == 6
    ensures Handshake(w).result.state == Paired
  {
    hide PairedOk, LongEnough, SignatureOk, PinOk, PairingSecret, Rep1, Rep2, Rep3, Rep4, Rep5, XmlTextHex, Key;
  }

  /** Paired exactly when every test on the way passes. */
  lemma PairedExactly(w: World)
    ensures Handshake(w).result.state == Paired <==>
      && Key(w) != "" && PairedOk(Rep1(w)) && ServerCert(w) != "" && PairedOk(Rep2(w)) && LongEnough(w)
      && PairedOk(Rep3(w)) && |PairingSecret(w)| > 16 && SignatureOk(w) && PinOk(w)
      && PairedOk(Rep4(w)) && PairedOk(Rep5(w))
  {
    hide PairedOk, LongEnough, SignatureOk, PinOk, Key, ServerCert, PairingSecret, Rep1, Rep2, Rep3, Rep4, Rep5;
  }

  // ----- failures

  function Unpairs(rs: seq<Request>): nat {
    if rs == [] then 0 else (if rs[|rs| - 1] == UNPAIR then 1 else 0) + Unpairs(rs[..|rs| - 1])
  }

  lemma {:induction false} NoUnpairs(rs: seq<Request>)
    requires forall i :: 0 <= i < |rs| ==> rs[i].command == "pair"
    ensures Unpairs(rs) == 0
  {
    if rs != [] {
      NoUnpairs(rs[..|rs| - 1]);
    }
  }

  ghost predicate IsSecretRequest(r: Request) {
    PREFIX + "clientpairingsecret=" <= r.args
  }

  /** What a failed run leaves: no certificate, at most six requests, and an unpair as its last request
      exactly if the first reply had been accepted; the client's secret only after both checks. */
  ghost predicate FailsCleanly(w: World, r: Run) {
    var rs := Requests(r.trace);
    && |rs| <= 6
    && (r.result.state != Paired ==> r.result.cert == "")
    && (r.result.state != Paired ==>
          (if Key(w) != "" && PairedOk(Rep1(w)) then Unpairs(rs) == 1 && rs[|rs| - 1] == UNPAIR
           else Unpairs(rs) == 0 && |rs| <= 1))
    && (r.result.state == Paired ==> Unpairs(rs) == 0)
    && (forall i :: 0 <= i < |rs| && IsSecretRequest(rs[i]) ==>
          Checked(w))
  }

  lemma GiveUpRequests(w: World, state: PairState, tr: seq<Event>)
    requires forall i :: 0 <= i < |Requests(tr)| ==> Requests(tr)[i].command == "pair"
    ensures var rs := Requests(GiveUp(w, state, tr).trace); rs == Requests(tr) + [UNPAIR] && Unpairs(rs) == 1
  {
    RequestsSnoc(tr, Sent(UNPAIR, w.env(Requests(tr) + [UNPAIR])));
    NoUnpairs(Requests(tr));
    var rs := Requests(tr) + [UNPAIR];
    assert rs[..|rs| - 1] == Requests(tr);
  }

  lemma NotSecret(w: World)
    ensures !IsSecretRequest(Req1(w)) && !IsSecretRequest(Req2(w)) && !IsSecretRequest(UNPAIR)
    ensures LongEnough(w) ==> !IsSecretRequest(Req3(w))
    ensures !IsSecretRequest(Req5(w))
  {
    var p := PREFIX + "clientpairingsecret=";
    var n := |PREFIX|;
    assert p[n] == 'c' && p[n + 6] == 'p';
    assert Req1(w).args[n] == 'p' && Req2(w).args[n + 6] == 'c' && Req5(w).args[n] == 'p';
    if LongEnough(w) {
      assert Req3(w).args[n] == 's';
    }
  }

  ghost predicate Checked(w: World) {
    LongEnough(w) && |PairingSecret(w)| > 16 && SignatureOk(w) && PinOk(w)
  }

  lemma CleanGiveUp(w: World, state: PairState, tr: seq<Event>)
    requires Key(w) != "" && PairedOk(Rep1(w)) && state != Paired && |Requests(tr)| <= 5
    requires forall i :: 0 <= i < |Requests(tr)| ==> Requests(tr)[i].command == "pair"
    requires Checked(w) || forall i :: 0 <= i < |Requests(tr)| ==> !IsSecretRequest(Requests(tr)[i])
    ensures FailsCleanly(w, GiveUp(w, state, tr))
  {
    hide Requests, Key, PairedOk, Rep1, LongEnough, Checked, SignatureOk, PinOk, PairingSecret, IsSecretRequest, GiveUp, Unpairs;
    GiveUpRequests(w, state, tr);
    NotSecret(w);
    GiveUpResult(w, state, tr);
  }

  lemma GiveUpResult(w: World, state: PairState, tr: seq<Event>)
    ensures GiveUp(w, state, tr).result == PairResult(state, "")
  {
  }

  lemma FailureIsClean(w: World)
    ensures FailsCleanly(w, Handshake(w))
  {
    StageRequests(w);
    NotSecret(w);
    RequestsAreOurs(w);
    NothingRequested();
    hide Req1, Req2, Req3, Req4, Req5, Rep1, Rep2, Rep3, Rep4, Rep5, PairedOk, LongEnough, SignatureOk, PinOk;
    hide PairingSecret, Key, ServerCert, IsSecretRequest, Trace1, Trace2, Trace3, Trace4, Trace5, Requests, GiveUp;
    if Key(w) == "" {
    } else if !PairedOk(Rep1(w)) {
      NoUnpairs(Requests(Trace1(w)));
    } else if ServerCert(w) == "" {
      CleanGiveUp(w, AlreadyInProgress, Trace1(w));
    } else if !PairedOk(Rep2(w)) || !LongEnough(w) {
      CleanGiveUp(w, Failed, Trace2(w));
    } else {
      FailureAfterThree(w);
    }
  }

  lemma NothingRequested()
    ensures Requests([]) == [] && Unpairs([]) == 0
  {
  }

  lemma RequestsAreOurs(w: World)
    ensures Req1(w).command == "pair" && Req2(w).command == "pair" && Req4(w).command == "pair" && Req5(w).command == "pair"
    ensures LongEnough(w) ==> Req3(w).command == "pair"
  {
  }

  lemma FailureAfterThree(w: World)
    requires Key(w) != "" && PairedOk(Rep1(w)) && ServerCert(w) != "" && PairedOk(Rep2(w)) && LongEnough(w)
    ensures FailsCleanly(w, Handshake(w))
  {
    StageRequests(w);
    NotSecret(w);
    RequestsAreOurs(w);
    hide Req1, Req2, Req3, Req4, Req5, Rep1, Rep2, Rep3, Rep4, Rep5, PairedOk, LongEnough, SignatureOk, PinOk;
    hide PairingSecret, Key, ServerCert, IsSecretRequest, Trace1, Trace2, Trace3, Trace4, Trace5, Requests, GiveUp;
    if !PairedOk(Rep3(w)) || |PairingSecret(w)| <= 16 || !SignatureOk(w) {
      CleanGiveUp(w, Failed, Trace3(w));
    } else if !PinOk(w) {
      CleanGiveUp(w, PinWrong, Trace3(w));
    } else if !PairedOk(Rep4(w)) {
      CleanGiveUp(w, Failed, Trace4(w));
    } else if !PairedOk(Rep5(w)) {
      CleanGiveUp(w, Failed, Trace5(w));
    } else {
      NoUnpairs(Requests(Trace5(w)));
    }
  }

  // ----- the handshake as it runs

  /** The transport callback, which remembers what was asked of it. */
  class Port {
    const env: seq<Request> -> string
    var trace: seq<Event>

    constructor (env: seq<Request> -> string)
      ensures this.env == env && trace == []
    {
      this.env := env;
      trace := [];
    }

    method Send(https: bool, command: string, args: string) returns (reply: string)
      modifies this
      ensures reply == env(Requests(old(trace)) + [Request(https, command, args)])
      ensures trace == old(trace) + [Sent(Request(https, command, args), reply)]
    {
      reply := env(Requests(trace) + [Request(https, command, args)]);
      trace := trace + [Sent(Request(https, command, args), reply)];
    }

    method SetPinnedCert(cert: string)
      modifies this
      ensures trace == old(trace) + [Pinned(cert)]
    {
      trace := trace + [Pinned(cert)];
    }
  }

  /** Best-effort cancel. */
  method Unpair(port: Port, ghost w: World, state: PairState) returns (r: PairResult)
    requires port.env == w.env
    modifies port
    ensures Run(r, port.trace) == GiveUp(w, state, old(port.trace))
  {
    var _ := port.Send(false, "unpair", "");
    r := PairResult(state, "");
  }

  method NvPair(port: Port, w: World) returns (r: PairResult)
    requires port.trace == [] && port.env == w.env
    modifies port
    ensures Run(r, port.trace) == Handshake(w)
  {
    StageRequests(w);
    hide PairedOk, XmlTextHex, ToHex, Encrypt, Decrypt, Hash, DeriveKey, Requests, GiveUp, SignatureOk, PinOk;
    NothingRequested();
    var salt := w.rnd(0);
    var aesKey := DeriveKey(w.c, w.gen7, salt, w.pin);
    if aesKey == "" { return PairResult(Failed, ""); }

    assert [] + [Req1(w)] == [Req1(w)];
    var getCert := port.Send(false, "pair",
      PREFIX + ("phrase=getservercert&salt=" + (ToHex(salt) + ("&clientcert=" + ToHex(w.id.cert)))));
    assert port.trace == Trace1(w);
    if !PairedOk(getCert) { return PairResult(Failed, ""); }

    var serverCert: Bytes := XmlTextHex(getCert, "plaincert");
    if serverCert == "" {
      r := Unpair(port, w, AlreadyInProgress);
      return;
    }
    port.SetPinnedCert(serverCert);
    RequestsSnoc(Trace1(w), Pinned(serverCert));
    assert Requests(port.trace) == [Req1(w)];

    var randomChallenge := w.rnd(1);
    var encChallenge := Encrypt(w.c, randomChallenge, aesKey);
    assert [Req1(w)] + [Req2(w)] == [Req1(w), Req2(w)];
    var challengeXml := port.Send(false, "pair", PREFIX + ("clientchallenge=" + ToHex(encChallenge)));
    assert port.trace == Trace2(w);
    if !PairedOk(challengeXml) {
      r := Unpair(port, w, Failed);
      return;
    }
    var challengeResp := Decrypt(w.c, XmlTextHex(challengeXml, "challengeresponse"), aesKey);
    if |challengeResp| < HashLen(w.gen7) + 16 {
      r := Unpair(port, w, Failed);
      return;
    }
    r := FinishPairing(port, w, aesKey, serverCert, challengeResp);
  }

  /** Stages 3 to 5. */
  method FinishPairing(port: Port, w: World, aesKey: Bytes, serverCert: Bytes, challengeResp: Bytes)
    returns (r: PairResult)
    requires port.env == w.env && LongEnough(w) && port.trace == Trace2(w)
    requires aesKey == Key(w) && aesKey != "" && serverCert == ServerCert(w) && serverCert != ""
    requires challengeResp == ChallengeResp(w) && PairedOk(Rep1(w)) && PairedOk(Rep2(w))
    modifies port
    ensures Run(r, port.trace) == Handshake(w)
  {
    StageRequests(w);
    hide PairedOk, XmlTextHex, ToHex, Encrypt, Decrypt, Hash, DeriveKey, Requests, GiveUp, Key, ServerCert, ChallengeResp;
    hide Rep1, Rep2, Req1, Req2;
    var serverResponse := challengeResp[..HashLen(w.gen7)];
    var clientSecret := w.rnd(2);
    var toHash: Bytes := challengeResp[HashLen(w.gen7)..HashLen(w.gen7) + 16];
    toHash := toHash + w.c.certSignature(w.id.cert);
    toHash := toHash + clientSecret;
    var paddedHash := Resize(Hash(w.c, w.gen7, toHash), 32);
    assert paddedHash == ClientHash(w);

    assert [Req1(w), Req2(w)] + [Req3(w)] == [Req1(w), Req2(w), Req3(w)];
    var respXml := port.Send(false, "pair",
      PREFIX + ("serverchallengeresp=" + ToHex(Encrypt(w.c, paddedHash, aesKey))));
    assert port.trace == Trace3(w);
    if !PairedOk(respXml) {
      r := Unpair(port, w, Failed);
      return;
    }
    var pairingSecret: Bytes := XmlTextHex(respXml, "pairingsecret");
    if |pairingSecret| <= 16 {
      r := Unpair(port, w, Failed);
      return;
    }
    var serverSecret: Bytes := pairingSecret[..16];
    if !w.c.verify(serverSecret, pairingSecret[16..], serverCert) {
      r := Unpair(port, w, Failed);
      return;
    }
    var expected: Bytes := w.rnd(1) + w.c.certSignature(serverCert) + serverSecret;
    if Hash(w.c, w.gen7, expected) != serverResponse {
      r := Unpair(port, w, PinWrong);
      return;
    }
    var secret: Bytes := clientSecret + w.c.sign(clientSecret, w.id.key);
    assert [Req1(w), Req2(w), Req3(w)] + [Req4(w)] == [Req1(w), Req2(w), Req3(w), Req4(w)];
    var secretXml := port.Send(false, "pair", PREFIX + ("clientpairingsecret=" + ToHex(secret)));
    assert port.trace == Trace4(w);
    if !PairedOk(secretXml) {
      r := Unpair(port, w, Failed);
      return;
    }
    assert [Req1(w), Req2(w), Req3(w), Req4(w)] + [Req5(w)] == [Req1(w), Req2(w), Req3(w), Req4(w), Req5(w)];
    var final := port.Send(true, "pair", PREFIX + "phrase=pairchallenge");
    assert port.trace == Trace5(w);
    if !PairedOk(final) {
      r := Unpair(port, w, Failed);
      return;
    }
    r := PairResult(Paired, serverCert);
  }
}
