/** What the requests and replies of a pairing run show, said with the cryptographic functions and the
    received values alone. */
module PairingEvidence {
  import opened Common
  import opened Xml
  import opened Pairing

  // ----- the vocabulary

  /** A reply with status 200 that says paired. */
  ghost predicate Success(reply: string) {
    XmlAttr(reply, "root", "status_code") == "200" && XmlText(reply, "paired") == "1"
  }

  /** SHA-256 from generation 7 on, SHA-1 before. */
  ghost function Digest(w: World, data: Bytes): Bytes {
    if w.gen7 then w.c.sha256(data) else w.c.sha1(data)
  }

  ghost function DigestSize(w: World): nat {
    if w.gen7 then 32 else 20
  }

  ghost function PinKey(w: World): Bytes {
    var h := Digest(w, w.rnd(0) + w.pin);
    if |h| >= 16 then h[..16] else ""
  }

  /** Whole blocks under a whole key. */
  ghost predicate WholeBlocks(data: Bytes, key: Bytes) {
    |key| == 16 && |data| > 0 && |data| % 16 == 0
  }

  ghost function Front(b: Bytes, n: nat): Bytes
    requires n <= |b|
  {
    b[..n]
  }

  ghost function Back(b: Bytes, n: nat): Bytes
    requires n <= |b|
  {
    b[n..]
  }

  ghost function Joined(a: Bytes, b: Bytes, c: Bytes): Bytes {
    a + b + c
  }

  // ----- the checks

  /** The second reply decrypts to a digest and a challenge. */
  ghost predicate AnswersChallenge(w: World, reply: string) {
    var data: Bytes := XmlTextHex(reply, "challengeresponse");
    WholeBlocks(data, PinKey(w)) && |w.c.dec(data, PinKey(w))| >= DigestSize(w) + 16
  }

  /** The secret in the third reply is signed with the key of the certificate in the first. */
  ghost predicate Signed(w: World, first: string, third: string) {
    var cert: Bytes := XmlTextHex(first, "plaincert");
    var ps: Bytes := XmlTextHex(third, "pairingsecret");
    |ps| > 16 && w.c.verify(Front(ps, 16), Back(ps, 16), cert)
  }

  /** The digest in the second reply is that of the client's challenge, the certificate's signature and
      the secret. */
  ghost predicate KnowsPin(w: World, first: string, second: string, third: string) {
    var cert: Bytes := XmlTextHex(first, "plaincert");
    var answer: Bytes := w.c.dec(XmlTextHex(second, "challengeresponse"), PinKey(w));
    var ps: Bytes := XmlTextHex(third, "pairingsecret");
    && |ps| > 16 && |answer| >= DigestSize(w)
    && Digest(w, Joined(w.rnd(1), w.c.certSignature(cert), Front(ps, 16))) == Front(answer, DigestSize(w))
  }

  /** Three replies came, each a success, with a certificate, an answer and a signed secret. */
  ghost predicate SignedSoFar(w: World, t: seq<Event>) {
    && |t| >= 4 && t[0].Sent? && t[2].Sent? && t[3].Sent?
    && Success(t[0].reply) && XmlTextHex(t[0].reply, "plaincert") != ""
    && Success(t[2].reply) && AnswersChallenge(w, t[2].reply)
    && Success(t[3].reply) && Signed(w, t[0].reply, t[3].reply)
  }

  /** The replies so far show that the host knows the PIN and holds the key of its certificate. */
  ghost predicate Evidence(w: World, t: seq<Event>) {
    SignedSoFar(w, t) && KnowsPin(w, t[0].reply, t[2].reply, t[3].reply)
  }

  ghost predicate CarriesSecret(e: Event) {
    e.Sent? && "devicename=roth&updateState=1&clientpairingsecret=" <= e.req.args
  }

  ghost predicate SecretSent(t: seq<Event>) {
    exists i :: 0 <= i < |t| && CarriesSecret(t[i])
  }

  // ----- the model's tests are these

  lemma SuccessIs(reply: string)
    ensures PairedOk(reply) <==> Success(reply)
  {
    hide XmlText;
    assert XmlAttr("", "root", "status_code") == "";
  }

  lemma KeyIs(w: World)
    ensures Key(w) == PinKey(w)
  {
  }

  lemma LongEnoughIs(w: World)
    ensures LongEnough(w) <==> AnswersChallenge(w, Rep2(w))
    ensures LongEnough(w) ==> ChallengeResp(w) == w.c.dec(XmlTextHex(Rep2(w), "challengeresponse"), PinKey(w))
  {
    hide Rep2, XmlTextHex, Key, PinKey;
    KeyIs(w);
  }

  lemma SignatureIs(w: World)
    requires LongEnough(w)
    ensures |PairingSecret(w)| > 16 && SignatureOk(w) <==> Signed(w, Rep1(w), Rep3(w))
  {
    hide Rep1, Rep3, XmlTextHex, LongEnough;
  }

  lemma PinIs(w: World)
    requires LongEnough(w)
    ensures |PairingSecret(w)| > 16 && PinOk(w) <==> KnowsPin(w, Rep1(w), Rep2(w), Rep3(w))
  {
    LongEnoughIs(w);
    hide Rep1, Rep2, Rep3, XmlTextHex, PinKey, ChallengeResp, Key, LongEnough;
    var ps, cert, answer := PairingSecret(w), ServerCert(w), w.c.dec(XmlTextHex(Rep2(w), "challengeresponse"), PinKey(w));
    assert answer == ChallengeResp(w) && |answer| >= DigestSize(w) by { AnswerSize(w); }
    assert ServerResponse(w) == answer[..DigestSize(w)] by { assert answer[0..HashLen(w.gen7)] == answer[..HashLen(w.gen7)]; }
    if |ps| > 16 {
      assert Concat3(w.rnd(1), w.c.certSignature(cert), ServerSecret(w))
          == Joined(w.rnd(1), w.c.certSignature(cert), Front(ps, 16));
    }
  }

  lemma AnswerSize(w: World)
    requires LongEnough(w)
    ensures |ChallengeResp(w)| >= DigestSize(w)
  {
    hide ChallengeResp;
  }

  /** The start of a run that got through the first two replies. */
  ghost predicate StartsWith(w: World, t: seq<Event>) {
    |t| >= 4 && t[0] == Sent(Req1(w), Rep1(w)) && t[2] == Sent(Req2(w), Rep2(w)) && t[3].Sent?
  }

  lemma EvidenceIs(w: World, t: seq<Event>)
    requires StartsWith(w, t) && Key(w) != ""
    ensures SignedSoFar(w, t) ==> PairedOk(Rep1(w)) && ServerCert(w) != "" && PairedOk(Rep2(w)) && LongEnough(w)
    ensures LongEnough(w) && t[3] == Sent(Req3(w), Rep3(w)) ==>
      && (SignedSoFar(w, t) <==>
            && PairedOk(Rep1(w)) && ServerCert(w) != "" && PairedOk(Rep2(w))
            && PairedOk(Rep3(w)) && |PairingSecret(w)| > 16 && SignatureOk(w))
      && (Evidence(w, t) <==> SignedSoFar(w, t) && PinOk(w))
  {
    SuccessIs(Rep1(w));
    SuccessIs(Rep2(w));
    LongEnoughIs(w);
    if LongEnough(w) {
      SuccessIs(Rep3(w));
      SignatureIs(w);
      PinIs(w);
    }
    hide Rep1, Rep2, Rep3, Req1, Req2, Req3, Success, AnswersChallenge, Signed, KnowsPin, XmlTextHex, LongEnough;
    hide SignatureOk, PinOk, PairingSecret, PairedOk;
  }

  lemma SecretIs(w: World, e: Event)
    requires e.Sent?
    ensures CarriesSecret(e) <==> IsSecretRequest(e.req)
  {
    assert PREFIX + "clientpairingsecret=" == "devicename=roth&updateState=1&clientpairingsecret=";
  }

  // ----- what a run shows

  /** The verdict, and whether the secret was sent, follow from the replies of the run. */
  ghost predicate Verdict(w: World, r: Run) {
    && (SecretSent(r.trace) <==> Evidence(w, r.trace))
    && (r.result.state == Paired ==> SecretSent(r.trace))
    && (r.result.state == PinWrong <==> SignedSoFar(w, r.trace) && !Evidence(w, r.trace))
    && (r.result.state == AlreadyInProgress <==>
          |r.trace| >= 1 && r.trace[0].Sent? && Success(r.trace[0].reply) && XmlTextHex(r.trace[0].reply, "plaincert") == "")
  }

  /** For every transport: the client's secret is sent if and only if the replies before it show that the
      host knows the PIN and holds the key of the certificate it presented, and a run that ends paired has
      sent it; the PIN is called wrong exactly if all but the digest was right; another pairing is said to
      be in progress exactly if a successful first reply brings no certificate. */
  lemma SecretOnlyOnEvidence(w: World)
    ensures Verdict(w, Handshake(w))
  {
    hide Req1, Req2, Req3, Req4, Req5, Rep1, Rep2, Rep3, Rep4, Rep5, PairedOk, LongEnough, SignatureOk, PinOk;
    hide PairingSecret, Key, ServerCert, Verdict;
    if Key(w) == "" || !PairedOk(Rep1(w)) || ServerCert(w) == "" {
      ShortTrace(w);
    } else if !PairedOk(Rep2(w)) || !LongEnough(w) {
      TwoReplies(w);
    } else if !PairedOk(Rep3(w)) || |PairingSecret(w)| <= 16 || !SignatureOk(w) || !PinOk(w) {
      ThreeReplies(w);
    } else {
      Through(w);
    }
  }

  lemma SecretRequest(w: World)
    ensures IsSecretRequest(Req4(w))
  {
    var hex := ToHex(w.rnd(2) + w.c.sign(w.rnd(2), w.id.key));
    assert Req4(w).args == (PREFIX + "clientpairingsecret=") + hex;
  }

  lemma ShortTrace(w: World)
    requires Key(w) == "" || !PairedOk(Rep1(w)) || ServerCert(w) == ""
    ensures Verdict(w, Handshake(w))
  {
    NotSecret(w);
    SuccessIs(Rep1(w));
    hide Req1, Rep1, PairedOk, Key, XmlTextHex, IsSecretRequest, CarriesSecret, Success;
    var t := Handshake(w).trace;
    forall i | 0 <= i < |t| ensures !CarriesSecret(t[i]) {
      SecretIs(w, t[i]);
    }
  }

  lemma TwoReplies(w: World)
    requires Key(w) != "" && PairedOk(Rep1(w)) && ServerCert(w) != "" && (!PairedOk(Rep2(w)) || !LongEnough(w))
    ensures Verdict(w, Handshake(w))
  {
    NotSecret(w);
    hide Req1, Rep1, Req2, Rep2, PairedOk, Key, XmlTextHex, LongEnough, IsSecretRequest, CarriesSecret, SignedSoFar, KnowsPin, Success;
    var t := Handshake(w).trace;
    assert t[0] == Sent(Req1(w), Rep1(w)) && t[1] == Pinned(ServerCert(w)) && t[2] == Sent(Req2(w), Rep2(w)) && |t| == 4;
    EvidenceIs(w, t);
    forall i | 0 <= i < |t| ensures !CarriesSecret(t[i]) {
      if i == 1 {
        PinIsNoSecret(t[1]);
      } else {
        SecretIs(w, t[i]);
      }
    }
  }

  lemma PinIsNoSecret(e: Event)
    requires e.Pinned?
    ensures !CarriesSecret(e)
  {
  }

  lemma ThreeReplies(w: World)
    requires Key(w) != "" && PairedOk(Rep1(w)) && ServerCert(w) != "" && PairedOk(Rep2(w)) && LongEnough(w)
    requires !PairedOk(Rep3(w)) || |PairingSecret(w)| <= 16 || !SignatureOk(w) || !PinOk(w)
    ensures Verdict(w, Handshake(w))
  {
    NotSecret(w);
    hide Req1, Rep1, Req2, Rep2, Req3, Rep3, PairedOk, Key, XmlTextHex, LongEnough, IsSecretRequest, CarriesSecret;
    hide PairingSecret, SignatureOk, PinOk, Success, Evidence, SignedSoFar;
    var t := Handshake(w).trace;
    assert t[0] == Sent(Req1(w), Rep1(w)) && t[1] == Pinned(ServerCert(w)) && t[2] == Sent(Req2(w), Rep2(w));
    assert t[3] == Sent(Req3(w), Rep3(w)) && |t| == 5 && t[4].Sent? && t[4].req == UNPAIR;
    EvidenceIs(w, t);
    forall i | 0 <= i < |t| ensures !CarriesSecret(t[i]) {
      if i == 1 {
        PinIsNoSecret(t[1]);
      } else {
        SecretIs(w, t[i]);
      }
    }
  }

  lemma Through(w: World)
    requires Key(w) != "" && PairedOk(Rep1(w)) && ServerCert(w) != "" && PairedOk(Rep2(w)) && LongEnough(w)
    requires PairedOk(Rep3(w)) && |PairingSecret(w)| > 16 && SignatureOk(w) && PinOk(w)
    ensures Verdict(w, Handshake(w))
  {
    SecretRequest(w);
    hide Req1, Rep1, Req2, Rep2, Req3, Rep3, Req4, Rep4, Req5, Rep5, PairedOk, Key, XmlTextHex, LongEnough, IsSecretRequest;
    hide PairingSecret, SignatureOk, PinOk, CarriesSecret, Evidence, SignedSoFar, Success;
    var t := Handshake(w).trace;
    assert t[0] == Sent(Req1(w), Rep1(w)) && t[2] == Sent(Req2(w), Rep2(w)) && t[3] == Sent(Req3(w), Rep3(w));
    assert t[4] == Sent(Req4(w), Rep4(w));
    EvidenceIs(w, t);
    SecretIs(w, t[4]);
    assert CarriesSecret(t[4]);
  }

  // ----- a run that ends paired, and one that does not

  /** Six events: five requests whose replies are successes and carry the evidence, and the certificate of
      the first pinned after it and returned; only the last request goes over HTTPS. */
  ghost predicate PairedRun(w: World, r: Run) {
    && |r.trace| == 6 && Evidence(w, r.trace)
    && r.trace[1] == Pinned(r.result.cert) && r.result.cert == XmlTextHex(r.trace[0].reply, "plaincert")
    && r.trace[4].Sent? && Success(r.trace[4].reply) && r.trace[5].Sent? && Success(r.trace[5].reply)
    && forall i :: 0 <= i < 6 && r.trace[i].Sent? ==> (r.trace[i].req.https <==> i == 5)
  }

  lemma PairedOnEvidence(w: World)
    ensures Handshake(w).result.state == Paired <==> PairedRun(w, Handshake(w))
  {
    PairedIsSound(w);
    SecretOnlyOnEvidence(w);
    hide Handshake, Evidence, XmlTextHex, Req1, Req2, Req3, Req4, Req5, Rep1, Rep2, Rep3, Rep4, Rep5;
    hide LongEnough, SignatureOk, PinOk, PairingSecret, PairedOk, Success, SignedSoFar, SecretSent;
    var r := Handshake(w);
    if r.result.state == Paired {
      SuccessIs(r.trace[4].reply);
      SuccessIs(r.trace[5].reply);
    }
    if PairedRun(w, r) {
      LastReplyDecides(w);
    }
  }

  /** A run of six events whose last reply is a success did not give up. */
  lemma LastReplyDecides(w: World)
    requires PairedRun(w, Handshake(w))
    ensures Handshake(w).result.state == Paired
  {
    var t := Handshake(w).trace;
    SuccessIs(t[5].reply);
    SuccessIs(t[4].reply);
    hide Req1, Req2, Req3, Req4, Rep1, Rep2, Rep3, Rep4, Rep5, LongEnough, SignatureOk, PinOk, PairingSecret, PairedOk, Success;
    hide XmlTextHex, Key, Evidence;
    SixEvents(w);
  }

  lemma SixEvents(w: World)
    ensures
      var r := Handshake(w);
      |r.trace| == 6 && r.result.state != Paired ==> r.trace[5].Sent? && !r.trace[5].req.https
  {
    hide Req1, Req2, Req3, Req4, Req5, Rep1, Rep2, Rep3, Rep4, Rep5, LongEnough, SignatureOk, PinOk, PairingSecret, PairedOk;
    hide XmlTextHex, Key;
  }

  /** What any run leaves: at most six requests; without success no certificate, and then an unpair as the
      last request, and once only, exactly if the first reply was a success. */
  ghost predicate LeavesClean(r: Run) {
    var rs := Requests(r.trace);
    var unpair := Request(false, "unpair", "");
    && |rs| <= 6
    && (r.result.state == Paired ==> unpair !in rs)
    && (r.result.state != Paired ==>
          && r.result.cert == ""
          && if |r.trace| >= 1 && r.trace[0].Sent? && Success(r.trace[0].reply)
             then |rs| >= 1 && rs[|rs| - 1] == unpair && unpair !in rs[..|rs| - 1]
             else |rs| <= 1 && unpair !in rs)
  }

  lemma {:induction false} UnpairsCount(rs: seq<Request>)
    ensures Unpairs(rs) == 0 <==> UNPAIR !in rs
    ensures Unpairs(rs) == 1 && rs[|rs| - 1] == UNPAIR ==> UNPAIR !in rs[..|rs| - 1]
  {
    if rs != [] {
      UnpairsCount(rs[..|rs| - 1]);
      assert rs == rs[..|rs| - 1] + [rs[|rs| - 1]];
    }
  }

  lemma RunsLeaveClean(w: World)
    ensures LeavesClean(Handshake(w))
  {
    hide Handshake, Requests, Unpairs, PairedOk, Success, Rep1, Key, Req1, IsSecretRequest, Checked;
    FailureIsClean(w);
    UnpairsCount(Requests(Handshake(w).trace));
    FirstReply(w);
    SuccessIs(Rep1(w));
  }

  lemma FirstReply(w: World)
    ensures var t := Handshake(w).trace; if Key(w) == "" then t == [] else |t| >= 1 && t[0] == Sent(Req1(w), Rep1(w))
  {
    hide Req1, Req2, Req3, Req4, Req5, Rep1, Rep2, Rep3, Rep4, Rep5, LongEnough, SignatureOk, PinOk, PairingSecret, PairedOk;
    hide XmlTextHex, Key;
  }

  // ----- what is asked

  ghost function Padded(h: Bytes): Bytes {
    if |h| >= 32 then h[..32] else h + seq(32 - |h|, _ => '\0')
  }

  ghost function Part(b: Bytes, i: nat, j: nat): Bytes
    requires i <= j <= |b|
  {
    b[i..j]
  }

  /** The client's proof: the digest of the host's challenge, the client certificate's signature and the
      client's secret, padded to two blocks. */
  ghost function ClientProof(w: World, second: string): Bytes
    requires AnswersChallenge(w, second)
  {
    var n := DigestSize(w);
    var answer: Bytes := w.c.dec(XmlTextHex(second, "challengeresponse"), PinKey(w));
    Padded(Digest(w, Joined(Part(answer, n, n + 16), w.c.certSignature(w.id.cert), w.rnd(2))))
  }

  /** The encrypted second draw, nothing if it is not made of blocks. */
  ghost function Challenge(w: World): Bytes {
    if WholeBlocks(w.rnd(1), PinKey(w)) then w.c.enc(w.rnd(1), PinKey(w)) else ""
  }

  /** The requests of a run, letter by letter. */
  ghost predicate SaysExactly(w: World, t: seq<Event>) {
    var p := "devicename=roth&updateState=1&";
    && (|t| >= 1 ==>
          && t[0].Sent?
          && t[0].req == Request(false, "pair", p + "phrase=getservercert&salt=" + ToHex(w.rnd(0)) + "&clientcert=" + ToHex(w.id.cert)))
    && (|t| >= 3 ==> t[2].Sent? && t[2].req == Request(false, "pair", p + "clientchallenge=" + ToHex(Challenge(w))))
    && (|t| >= 5 && t[2].Sent? && AnswersChallenge(w, t[2].reply) ==>
          t[3].Sent? && t[3].req
          == Request(false, "pair", p + "serverchallengeresp=" + ToHex(w.c.enc(ClientProof(w, t[2].reply), PinKey(w)))))
    && (SecretSent(t) ==>
          |t| >= 5 && t[4].Sent? && t[4].req
          == Request(false, "pair", p + "clientpairingsecret=" + ToHex(w.rnd(2) + w.c.sign(w.rnd(2), w.id.key))))
    && (|t| >= 6 && t[5].Sent? && t[5].req.https ==> t[5].req == Request(true, "pair", p + "phrase=pairchallenge"))
  }

  lemma FirstRequestIs(w: World)
    ensures Req1(w) == Request(false, "pair",
      "devicename=roth&updateState=1&" + "phrase=getservercert&salt=" + ToHex(w.rnd(0)) + "&clientcert=" + ToHex(w.id.cert))
  {
    hide ToHex;
    var a, b := ToHex(w.rnd(0)), ToHex(w.id.cert);
    assert PREFIX + ("phrase=getservercert&salt=" + (a + ("&clientcert=" + b)))
        == PREFIX + "phrase=getservercert&salt=" + a + "&clientcert=" + b;
  }

  lemma SecondRequestIs(w: World)
    ensures Req2(w) == Request(false, "pair", "devicename=roth&updateState=1&" + "clientchallenge=" + ToHex(Challenge(w)))
  {
    KeyIs(w);
    hide ToHex, Key, PinKey;
    assert Encrypt(w.c, w.rnd(1), Key(w)) == Challenge(w);
    var h := ToHex(Challenge(w));
    assert PREFIX + ("clientchallenge=" + h) == PREFIX + "clientchallenge=" + h;
  }

  lemma ProofIs(w: World)
    requires LongEnough(w) && AnswersChallenge(w, Rep2(w))
    ensures ClientHash(w) == ClientProof(w, Rep2(w)) && |ClientHash(w)| == 32
  {
    LongEnoughIs(w);
    hide Rep2, XmlTextHex, PinKey, ChallengeResp, Key, LongEnough;
    var n := DigestSize(w);
    var answer: Bytes := w.c.dec(XmlTextHex(Rep2(w), "challengeresponse"), PinKey(w));
    var sig, x := w.c.certSignature(w.id.cert), Part(answer, n, n + 16);
    assert ServerChallenge(w) == x;
    assert Concat3(x, sig, w.rnd(2)) == Joined(x, sig, w.rnd(2));
    PaddedIs(Digest(w, Joined(x, sig, w.rnd(2))));
  }

  lemma PaddedIs(h: Bytes)
    ensures Resize(h, 32) == Padded(h)
  {
  }

  lemma ThirdRequestIs(w: World)
    requires LongEnough(w) && Key(w) != "" && AnswersChallenge(w, Rep2(w))
    ensures Req3(w) == Request(false, "pair",
      "devicename=roth&updateState=1&" + "serverchallengeresp=" + ToHex(w.c.enc(ClientProof(w, Rep2(w)), PinKey(w))))
  {
    KeyIs(w);
    ProofIs(w);
    assert |Key(w)| == 16;
    hide ToHex, Key, PinKey, ClientHash, ClientProof, LongEnough, Rep2;
    assert Encrypt(w.c, ClientHash(w), Key(w)) == w.c.enc(ClientProof(w, Rep2(w)), PinKey(w));
    var h := ToHex(w.c.enc(ClientProof(w, Rep2(w)), PinKey(w)));
    assert PREFIX + ("serverchallengeresp=" + h) == PREFIX + "serverchallengeresp=" + h;
  }

  lemma LastRequestsAre(w: World)
    ensures Req4(w) == Request(false, "pair",
      "devicename=roth&updateState=1&" + "clientpairingsecret=" + ToHex(w.rnd(2) + w.c.sign(w.rnd(2), w.id.key)))
    ensures Req5(w) == Request(true, "pair", "devicename=roth&updateState=1&" + "phrase=pairchallenge")
  {
    hide ToHex;
    var h := ToHex(w.rnd(2) + w.c.sign(w.rnd(2), w.id.key));
    assert PREFIX + ("clientpairingsecret=" + h) == PREFIX + "clientpairingsecret=" + h;
  }

  /** Where the requests stand in a run. */
  lemma Positions(w: World)
    ensures
      var t := Handshake(w).trace;
      && (|t| >= 1 ==> Key(w) != "" && t[0] == Sent(Req1(w), Rep1(w)))
      && (|t| >= 3 ==> t[2] == Sent(Req2(w), Rep2(w)))
      && (|t| >= 5 ==> LongEnough(w) && t[3] == Sent(Req3(w), Rep3(w)))
      && (|t| >= 6 ==> t[4] == Sent(Req4(w), Rep4(w)))
      && (|t| >= 6 && t[5].Sent? && t[5].req.https ==> t[5].req == Req5(w))
  {
    hide Req1, Req2, Req3, Req4, Req5, Rep1, Rep2, Rep3, Rep4, Rep5, LongEnough, SignatureOk, PinOk, PairingSecret, PairedOk;
    hide XmlTextHex, Key;
  }

  /** How long a run is, by what passed. */
  lemma Lengths(w: World)
    ensures
      var t := Handshake(w).trace;
      Key(w) != "" && PairedOk(Rep1(w)) && ServerCert(w) != "" && PairedOk(Rep2(w)) && LongEnough(w) ==>
        && |t| >= 5
        && (PairedOk(Rep3(w)) && |PairingSecret(w)| > 16 && SignatureOk(w) && PinOk(w) ==> |t| >= 6)
  {
    hide Req1, Req2, Req3, Req4, Req5, Rep1, Rep2, Rep3, Rep4, Rep5, LongEnough, SignatureOk, PinOk, PairingSecret, PairedOk;
    hide XmlTextHex, Key;
  }

  lemma SecretIsLate(w: World)
    requires Evidence(w, Handshake(w).trace)
    ensures |Handshake(w).trace| >= 6
  {
    hide Handshake, Req1, Req2, Req3, Req4, Req5, Rep1, Rep2, Rep3, Rep4, Rep5, LongEnough, SignatureOk, PinOk, PairingSecret;
    hide XmlTextHex, Key, Success, AnswersChallenge, Signed, KnowsPin, PairedOk;
    Positions(w);
    Lengths(w);
    EvidenceIs(w, Handshake(w).trace);
  }

  /** Every run asks exactly this, in this order. */
  lemma RequestsSayExactly(w: World)
    ensures SaysExactly(w, Handshake(w).trace)
  {
    Positions(w);
    SecretOnlyOnEvidence(w);
    FirstRequestIs(w);
    LastRequestsAre(w);
    LongEnoughIs(w);
    var t := Handshake(w).trace;
    if Evidence(w, t) {
      SecretIsLate(w);
    }
    hide Handshake, Req1, Req2, Req3, Req4, Req5, Rep1, Rep2, Rep3, Rep4, Rep5, LongEnough, SecretSent, Evidence, Key, PinKey, ToHex;
    hide AnswersChallenge, ClientProof, Challenge, Verdict;
    SecondRequestIs(w);
    if |t| >= 5 && AnswersChallenge(w, t[2].reply) {
      ThirdRequestIs(w);
    }
  }
}
