/** An honest host for the pairing handshake, and completeness: with the same PIN the handshake always
    ends paired. The host answers from the requests it has seen, through the real hex and XML text, and
    checks the client's hash against the secret revealed later. */
module PairingHost {
  import opened Common
  import opened Xml
  import opened Markup
  import opened Pairing

  /** `challenge` and `secret` are the host's own random bytes. */
  datatype Host = Host(id: Identity, pin: Bytes, gen7: bool, challenge: Bytes, secret: Bytes, decl: string)

  // ----- what the cryptography must satisfy

  /** Digest sizes, and a cipher that is undone on whole blocks and keeps lengths. */
  ghost predicate Laws(c: Crypto) {
    && (forall x :: |c.sha256(x)| == 32)
    && (forall x :: |c.sha1(x)| == 20)
    && (forall x: Bytes, k: Bytes :: Blocks(x, k) ==> |c.enc(x, k)| == |x| && c.dec(c.enc(x, k), k) == x)
  }

  /** The key signs what the certificate verifies, and signatures are not empty. */
  ghost predicate KeyPair(c: Crypto, id: Identity) {
    forall m :: c.sign(m, id.key) != "" && c.verify(m, c.sign(m, id.key), id.cert)
  }

  // ----- pages

  function Page(decl: string, fields: seq<Field>): string {
    ResponseThen(decl, "200", FieldsThen(fields, CloseThen("root", "")))
  }

  function Flag(paired: bool): Field {
    Field("paired", "", if paired then "1" else "0", "")
  }

  function Hex(name: string, b: Bytes): Field {
    Field(name, "", ToHex(b), "")
  }

  // ----- reading the client's requests

  function Lead(name: string): string {
    PREFIX + name
  }

  predicate Asks(r: Request, name: string) {
    r.command == "pair" && Lead(name) <= r.args
  }

  function Param(r: Request, name: string): string
    requires Asks(r, name)
  {
    r.args[|Lead(name)|..]
  }

  const CERT := "phrase=getservercert&salt="
  const CHALLENGE := "clientchallenge="
  const RESPONSE := "serverchallengeresp="
  const SECRET := "clientpairingsecret="
  const FINAL := "phrase=pairchallenge"

  /** The salt and the client's certificate of the first request. */
  function Salt(r: Request): Bytes
    requires Asks(r, CERT)
  {
    var e := Search(Param(r, CERT), "&");
    if e.None? then "" else FromHex(e.value.before)
  }

  function ClientCert(r: Request): Bytes
    requires Asks(r, CERT)
  {
    var e := Search(Param(r, CERT), "&");
    if e.None? || !("&clientcert=" <= e.value.at) then "" else FromHex(e.value.at[12..])
  }

  function HostKey(c: Crypto, h: Host, r: Request): Bytes
    requires Asks(r, CERT)
  {
    DeriveKey(c, h.gen7, Salt(r), h.pin)
  }

  /** Up to the next multiple of 16 bytes. */
  function PadBlock(s: Bytes): (r: Bytes)
    ensures |r| % 16 == 0 && s <= r
  {
    s + Zeros((16 - |s| % 16) % 16)
  }

  /** The hash that shows the host knows the PIN, then its own challenge, encrypted. */
  function HostBlob(c: Crypto, h: Host, r1: Request, r2: Request): Bytes
    requires Asks(r1, CERT) && Asks(r2, CHALLENGE)
  {
    var key := HostKey(c, h, r1);
    var clientChallenge := Decrypt(c, FromHex(Param(r2, CHALLENGE)), key);
    Encrypt(c, HostPlain(c, h, clientChallenge), key)
  }

  function HostPlain(c: Crypto, h: Host, clientChallenge: Bytes): Bytes {
    PadBlock(Hash(c, h.gen7, Concat3(clientChallenge, c.certSignature(h.id.cert), h.secret)) + h.challenge)
  }

  /** The revealed secret is signed by the client's certificate, and the hash sent before it was over
      this secret and the host's challenge. */
  predicate ClientOk(c: Crypto, h: Host, r1: Request, r3: Request, r4: Request)
    requires Asks(r1, CERT) && Asks(r3, RESPONSE) && Asks(r4, SECRET)
  {
    var s := FromHex(Param(r4, SECRET));
    var sent := Decrypt(c, FromHex(Param(r3, RESPONSE)), HostKey(c, h, r1));
    && |s| > 16 && |sent| >= HashLen(h.gen7)
    && c.verify(s[..16], s[16..], ClientCert(r1))
    && sent[..HashLen(h.gen7)] == Hash(c, h.gen7, Concat3(h.challenge, c.certSignature(ClientCert(r1)), s[..16]))
  }

  /** The reply to the last request of a history. */
  function Answer(c: Crypto, h: Host, hist: seq<Request>): string {
    if |hist| == 1 && Asks(hist[0], CERT) then
      Page(h.decl, [Flag(true), Hex("plaincert", h.id.cert)])
    else if |hist| == 2 && Asks(hist[0], CERT) && Asks(hist[1], CHALLENGE) then
      Page(h.decl, [Flag(true), Hex("challengeresponse", HostBlob(c, h, hist[0], hist[1]))])
    else if |hist| == 3 && Asks(hist[2], RESPONSE) then
      Page(h.decl, [Flag(true), Hex("pairingsecret", h.secret + c.sign(h.secret, h.id.key))])
    else if |hist| == 4 && Asks(hist[0], CERT) && Asks(hist[2], RESPONSE) && Asks(hist[3], SECRET) then
      Page(h.decl, [Flag(ClientOk(c, h, hist[0], hist[2], hist[3]))])
    else if |hist| == 5 && Asks(hist[0], CERT) && Asks(hist[2], RESPONSE) && Asks(hist[3], SECRET)
         && Asks(hist[4], FINAL) && hist[4].https then
      Page(h.decl, [Flag(ClientOk(c, h, hist[0], hist[2], hist[3]))])
    else Page(h.decl, [Flag(false)])
  }

  /** A client with the host's PIN, talking to the host. */
  function Meeting(c: Crypto, h: Host, id: Identity, rnd: nat -> Bytes): World {
    World(c, hist => Answer(c, h, hist), rnd, id, h.pin, h.gen7)
  }

  ghost predicate Honest(c: Crypto, h: Host, id: Identity, rnd: nat -> Bytes) {
    && Laws(c) && KeyPair(c, h.id) && KeyPair(c, id) && DeclOk(h.decl)
    && h.id.cert != "" && |h.challenge| == 16 && |h.secret| == 16
    && |rnd(0)| == 16 && |rnd(1)| == 16 && |rnd(2)| == 16
  }

  // ----- pages are read as written

  lemma Names()
    ensures ValidName("paired") && ValidName("plaincert") && ValidName("challengeresponse") && ValidName("pairingsecret")
  {
  }

  lemma FlagField(paired: bool)
    ensures FieldOk(Flag(paired)) && DecodeEntities(Flag(paired).body) == Flag(paired).body
  {
    Names();
    PlainText(Flag(paired).body);
  }

  lemma HexField(name: string, b: Bytes)
    requires ValidName(name)
    ensures FieldOk(Hex(name, b)) && DecodeEntities(Hex(name, b).body) == ToHex(b)
  {
    ToHexDigits(b);
    HexIsPlain(ToHex(b));
    PlainText(ToHex(b));
  }

  lemma FieldOnPage(decl: string, fields: seq<Field>, tag: string)
    requires DeclOk(decl) && FieldsOk(fields) && ValidName(tag) && tag != "root"
    ensures TextOf(fields, tag).Some? ==> XmlText(Page(decl, fields), tag) == TextOf(fields, tag).value
  {
    hide XmlText, FieldsThen, CloseThen, ResponseThen, FindStartTag;
    var rest := CloseThen("root", "");
    TextInResponse(decl, "200", FieldsThen(fields, rest), tag);
    TextOfFields(fields, rest, tag);
  }

  lemma PageStatus(decl: string, fields: seq<Field>)
    requires DeclOk(decl)
    ensures XmlAttr(Page(decl, fields), "root", "status_code") == "200" && Page(decl, fields) != ""
  {
    StatusOfResponse(decl, "200", FieldsThen(fields, CloseThen("root", "")));
  }

  lemma FlagPage(decl: string)
    requires DeclOk(decl)
    ensures PairedOk(Page(decl, [Flag(true)]))
  {
    hide XmlText, XmlAttr, Page, DecodeEntities, ValidName;
    Names();
    FlagField(true);
    var fs := [Flag(true)];
    assert FieldOk(fs[0]);
    FieldOnPage(decl, fs, "paired");
    PageStatus(decl, fs);
  }

  lemma PageFields(name: string, b: Bytes)
    requires name != "paired"
    ensures
      var fs := [Flag(true), Hex(name, b)];
      TextOf(fs, name) == Some(DecodeEntities(Hex(name, b).body)) && TextOf(fs, "paired") == Some(DecodeEntities(Flag(true).body))
  {
    hide DecodeEntities;
    var fs := [Flag(true), Hex(name, b)];
    assert fs[1..] == [Hex(name, b)];
    assert TextOf(fs[1..], name) == Some(DecodeEntities(Hex(name, b).body));
  }

  /** A page with a flag and a hex field is accepted and yields the bytes. */
  lemma HexPage(decl: string, name: string, b: Bytes)
    requires DeclOk(decl) && ValidName(name) && name != "root" && name != "paired"
    ensures var p := Page(decl, [Flag(true), Hex(name, b)]); PairedOk(p) && XmlTextHex(p, name) == b
  {
    hide XmlText, XmlAttr, Page, DecodeEntities, ValidName, ToHex, FromHex;
    Names();
    FlagField(true);
    HexField(name, b);
    var fs := [Flag(true), Hex(name, b)];
    assert FieldOk(fs[0]) && FieldOk(fs[1]);
    assert fs[1..] == [Hex(name, b)];
    PageFields(name, b);
    FieldOnPage(decl, fs, "paired");
    FieldOnPage(decl, fs, name);
    PageStatus(decl, fs);
    FromToHex(b);
  }

  // ----- requests are read as written

  lemma ParamOf(https: bool, name: string, tail: string)
    ensures Asks(PairRequest(https, name + tail), name) && Param(PairRequest(https, name + tail), name) == tail
  {
    var r := PairRequest(https, name + tail);
    assert r.args == Lead(name) + tail;
  }

  lemma FirstRequest(w: World)
    ensures Asks(Req1(w), CERT) && Salt(Req1(w)) == w.rnd(0) && ClientCert(Req1(w)) == w.id.cert
  {
    hide ToHex, FromHex, Search;
    var salt, cert := ToHex(w.rnd(0)), ToHex(w.id.cert);
    ParamOf(false, CERT, salt + ("&clientcert=" + cert));
    ToHexDigits(w.rnd(0));
    HexIsPlain(salt);
    SearchFinds(salt, "&clientcert=" + cert, "&");
    assert ("&clientcert=" + cert)[12..] == cert;
    FromToHex(w.rnd(0));
    FromToHex(w.id.cert);
  }

  lemma HexRequest(name: string, b: Bytes)
    ensures
      var r := PairRequest(false, name + ToHex(b));
      Asks(r, name) && FromHex(Param(r, name)) == b
  {
    ParamOf(false, name, ToHex(b));
    FromToHex(b);
  }

  // ----- stage by stage

  lemma HashSize(c: Crypto, gen7: bool, x: Bytes)
    requires Laws(c)
    ensures |Hash(c, gen7, x)| == HashLen(gen7)
  {
  }

  lemma Stage1(c: Crypto, h: Host, id: Identity, rnd: nat -> Bytes)
    requires Honest(c, h, id, rnd)
    ensures
      var w := Meeting(c, h, id, rnd);
      |Key(w)| == 16 && PairedOk(Rep1(w)) && ServerCert(w) == h.id.cert && HostKey(c, h, Req1(w)) == Key(w)
  {
    hide PairedOk, XmlTextHex, Page, Asks, ClientOk, HostBlob, Hash;
    var w := Meeting(c, h, id, rnd);
    HashSize(c, h.gen7, rnd(0) + h.pin);
    FirstRequest(w);
    Names();
    HexPage(h.decl, "plaincert", h.id.cert);
    assert Rep1(w) == Answer(c, h, [Req1(w)]);
  }

  /** What the host encrypts in stage 2, unpadded. */
  lemma PlainParts(c: Crypto, h: Host, x: Bytes)
    requires Laws(c) && |h.challenge| == 16
    ensures
      var plain, n := HostPlain(c, h, x), HashLen(h.gen7);
      && |plain| >= n + 16 && |plain| % 16 == 0
      && Slice(plain, 0, n) == Hash(c, h.gen7, Concat3(x, c.certSignature(h.id.cert), h.secret))
      && Slice(plain, n, n + 16) == h.challenge
  {
    hide Hash, Concat3;
    var hash := Hash(c, h.gen7, Concat3(x, c.certSignature(h.id.cert), h.secret));
    HashSize(c, h.gen7, Concat3(x, c.certSignature(h.id.cert), h.secret));
    var both: Bytes := hash + h.challenge;
    var plain := PadBlock(both);
    var n := HashLen(h.gen7);
    assert plain[..n + 16] == both;
    assert plain[..n] == plain[..n + 16][..n] == hash;
    assert plain[n..n + 16] == plain[..n + 16][n..] == h.challenge;
  }

  lemma Undone(c: Crypto, x: Bytes, k: Bytes)
    requires Laws(c) && Blocks(x, k)
    ensures Decrypt(c, Encrypt(c, x, k), k) == x
  {
  }

  lemma Stage2(c: Crypto, h: Host, id: Identity, rnd: nat -> Bytes)
    requires Honest(c, h, id, rnd)
    ensures
      var w := Meeting(c, h, id, rnd);
      PairedOk(Rep2(w)) && ChallengeResp(w) == HostPlain(c, h, rnd(1)) && Asks(Req2(w), CHALLENGE)
  {
    hide PairedOk, XmlText, XmlTextHex, Page, Key, HostPlain, Encrypt, Decrypt, Salt, ClientCert, ToHex, FromHex, HostKey, Asks, Param, Search, Hash, Concat3, ClientOk, Req1, Rep1, ServerCert;
    var w := Meeting(c, h, id, rnd);
    Stage1(c, h, id, rnd);
    FirstRequest(w);
    var r1, r2 := Req1(w), Req2(w);
    HexRequest(CHALLENGE, Encrypt(c, rnd(1), Key(w)));
    Names();
    Undone(c, rnd(1), Key(w));
    PlainParts(c, h, rnd(1));
    Undone(c, HostPlain(c, h, rnd(1)), Key(w));
    HexPage(h.decl, "challengeresponse", HostBlob(c, h, r1, r2));
    assert HostBlob(c, h, r1, r2) == Encrypt(c, HostPlain(c, h, rnd(1)), Key(w));
    assert [r1, r2][0] == r1 && [r1, r2][1] == r2;
    assert Rep2(w) == Answer(c, h, [r1, r2]);
  }

  lemma Stage3(c: Crypto, h: Host, id: Identity, rnd: nat -> Bytes)
    requires Honest(c, h, id, rnd)
    ensures
      var w := Meeting(c, h, id, rnd);
      && LongEnough(w) && PairedOk(Rep3(w)) && Asks(Req3(w), RESPONSE)
      && PairingSecret(w) == h.secret + c.sign(h.secret, h.id.key)
      && |PairingSecret(w)| > 16 && SignatureOk(w) && PinOk(w)
      && ServerChallenge(w) == h.challenge
  {
    hide PairedOk, XmlText, XmlTextHex, Page, Key, HostPlain, Encrypt, Decrypt, Salt, ClientCert, ToHex, FromHex, HostKey, Asks, Param, Search, Hash, Concat3, ClientOk, HostBlob, Req1, Req2, Rep1, Rep2, ServerCert, ChallengeResp;
    var w := Meeting(c, h, id, rnd);
    Stage1(c, h, id, rnd);
    Stage2(c, h, id, rnd);
    PlainParts(c, h, rnd(1));
    assert LongEnough(w);
    HexRequest(RESPONSE, Encrypt(c, ClientHash(w), Key(w)));
    Names();
    var secret: Bytes := h.secret + c.sign(h.secret, h.id.key);
    HexPage(h.decl, "pairingsecret", secret);
    var hist := [Req1(w), Req2(w), Req3(w)];
    assert hist[2] == Req3(w);
    assert Rep3(w) == Answer(c, h, hist);
    assert PairingSecret(w) == secret;
    assert secret[..16] == h.secret && secret[16..] == c.sign(h.secret, h.id.key);
  }

  /** The hash the client sent is the one the host expects of it. */
  lemma HostAccepts(c: Crypto, h: Host, id: Identity, rnd: nat -> Bytes)
    requires Honest(c, h, id, rnd)
    ensures
      var w := Meeting(c, h, id, rnd);
      && LongEnough(w) && Asks(Req1(w), CERT) && Asks(Req3(w), RESPONSE) && Asks(Req4(w), SECRET)
      && ClientOk(c, h, Req1(w), Req3(w), Req4(w))
  {
    hide PairedOk, XmlText, XmlTextHex, Page, Key, HostPlain, Encrypt, Decrypt, HostBlob, Asks, Param, ChallengeResp, Req1, Rep1, Rep2, Rep3, Salt, ClientCert, HostKey, FromHex, ToHex, Concat3, Hash, SignatureOk, PinOk, PairingSecret, Search, ServerCert;
    var w := Meeting(c, h, id, rnd);
    Stage1(c, h, id, rnd);
    Stage3(c, h, id, rnd);
    FirstRequest(w);
    var signature := c.sign(rnd(2), id.key);
    var s: Bytes := rnd(2) + signature;
    HexRequest(SECRET, s);
    HexRequest(RESPONSE, Encrypt(c, ClientHash(w), Key(w)));
    Undone(c, ClientHash(w), Key(w));
    assert s[..16] == rnd(2) && s[16..] == signature;
    var data := Concat3(h.challenge, c.certSignature(id.cert), rnd(2));
    HashSize(c, h.gen7, data);
    assert ClientHash(w)[..HashLen(h.gen7)] == Hash(c, h.gen7, data);
  }

  lemma Stage45(c: Crypto, h: Host, id: Identity, rnd: nat -> Bytes)
    requires Honest(c, h, id, rnd)
    ensures var w := Meeting(c, h, id, rnd); LongEnough(w) && PairedOk(Rep4(w)) && PairedOk(Rep5(w))
  {
    hide PairedOk, Page, HostBlob, Asks, ClientOk, Req1, Req2, Req3, Req4, Search, Hex, Lead;
    var w := Meeting(c, h, id, rnd);
    HostAccepts(c, h, id, rnd);
    FlagPage(h.decl);
    ParamOf(true, FINAL, "");
    assert FINAL + "" == FINAL;
    assert Req5(w).https;
    assert Req5(w) == PairRequest(true, FINAL) by { LastRequest(w); }
    var four := [Req1(w), Req2(w), Req3(w), Req4(w)];
    var five := [Req1(w), Req2(w), Req3(w), Req4(w), Req5(w)];
    assert four[0] == Req1(w) && four[2] == Req3(w) && four[3] == Req4(w);
    assert five[0] == Req1(w) && five[2] == Req3(w) && five[3] == Req4(w) && five[4] == Req5(w);
    assert Rep4(w) == Answer(c, h, four) && Rep5(w) == Answer(c, h, five);
  }

  lemma LastRequest(w: World)
    ensures Req5(w) == PairRequest(true, FINAL)
  {
  }

  /** For every PIN, every random draw and both generations: pairing with an honest host succeeds, with
      the host's certificate, and the host has accepted the client. */
  lemma PairingCompletes(c: Crypto, h: Host, id: Identity, rnd: nat -> Bytes)
    requires Honest(c, h, id, rnd)
    ensures Handshake(Meeting(c, h, id, rnd)).result == PairResult(Paired, h.id.cert)
    ensures
      var w := Meeting(c, h, id, rnd);
      && LongEnough(w) && Asks(Req1(w), CERT) && Asks(Req3(w), RESPONSE) && Asks(Req4(w), SECRET)
      && ClientOk(c, h, Req1(w), Req3(w), Req4(w))
  {
    Stage1(c, h, id, rnd);
    Stage2(c, h, id, rnd);
    Stage3(c, h, id, rnd);
    HostAccepts(c, h, id, rnd);
    Stage45(c, h, id, rnd);
    hide PairedOk, Key, ServerCert, Rep1, Rep2, Rep3, Rep4, Rep5, LongEnough, PairingSecret, SignatureOk, PinOk, Honest, ClientOk, Asks;
    PairedExactly(Meeting(c, h, id, rnd));
  }

  /** The laws can be met. */
  function ToyCrypto(): Crypto {
    Crypto(_ => Zeros(32), _ => Zeros(20), (x: Bytes, _: Bytes) => x, (x: Bytes, _: Bytes) => x,
           _ => "", (_: Bytes, _: Bytes, _: Bytes) => true, (_: Bytes, _: Bytes) => "s")
  }

  lemma LawsAreConsistent(id: Identity)
    ensures Laws(ToyCrypto()) && KeyPair(ToyCrypto(), id)
  {
  }
}
