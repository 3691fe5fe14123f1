// The DSSE envelope: signing, and the Python and TypeScript verifiers.
module Envelope {
  import opened Wrappers
  import opened Json
  import opened KeyOrder
  import opened CanonicalForm
  import JsonTokens
  import opened JsonText
  import opened CanonicalText
  import opened Utf8
  import Base64
  import opened Pae

  /** The names an envelope must carry: the payload type and the issuer's key id. */
  datatype Profile = Profile(payloadType: string, keyid: string)

  const MAX_SAFE := 9007199254740991

  datatype Signature = Signature(keyid: string, sig: string)

  datatype Envelope = Envelope(payloadType: string, payload: string, signatures: seq<Signature>)

  /** A pinned key; the validity times are None when they are not UTC RFC 3339 texts. */
  datatype Key = Key(
    keyid: string,
    algorithm: string,
    role: string,
    status: string,
    revokedAt: Option<string>,
    notBefore: Option<int>,
    notAfter: Option<int>,
    publicKey: string)

  /** Ed25519, kept abstract. */
  datatype Scheme = Scheme(
    publicKey: seq<Byte> -> seq<Byte>,
    sign: (seq<Byte>, seq<Byte>) -> seq<Byte>,
    accepts: (seq<Byte>, seq<Byte>, seq<Byte>) -> bool)
  {
    /** Keys have 32 bytes and signatures 64, and these verify under the public key of their seed. */
    ghost predicate Correct() {
      forall seed, m ::
        |publicKey(seed)| == 32 && |sign(seed, m)| == 64 && accepts(publicKey(seed), m, sign(seed, m))
    }

    /** Nothing else verifies under the public key of this seed. */
    ghost predicate Unforgeable(seed: seq<Byte>) {
      forall m, s :: accepts(publicKey(seed), m, s) ==> s == sign(seed, m)
    }
  }

  datatype Verifier = Python | TypeScript

  function OrderOf(v: Verifier): Order { if v == Python then CodePoint else Utf16 }

  function DecodeText(v: Verifier, b: seq<Byte>): Option<string> {
    if v == Python then DecodeStrict(b) else Some(DecodeLenient(b))
  }

  /** Integers inside the range every implementation reads exactly. */
  predicate Interoperable(d: Doc) {
    match d
    case DNum(n) => -MAX_SAFE <= n <= MAX_SAFE
    case DArr(items) => forall i :: 0 <= i < |items| ==> Interoperable(items[i])
    case DObj(ms) => forall i :: 0 <= i < |ms| ==> Interoperable(ms[i].value)
    case _ => true
  }

  /** The members of an object other than one key. */
  function Without(ms: seq<Member>, key: string): (r: seq<Member>)
    ensures forall m :: m in r <==> m in ms && m.key != key
    ensures DistinctKeys(ms) ==> DistinctKeys(r)
  {
    if ms == [] then []
    else
      var rest := Without(ms[1..], key);
      assert forall m :: m in ms <==> m == ms[0] || m in ms[1..];
      if ms[0].key == key then rest
      else
        assert DistinctKeys(ms) ==> forall i :: 0 <= i < |rest| ==> rest[i] in rest && rest[i].key != ms[0].key;
        [ms[0]] + rest
  }

  /** The claimed packet hash, when present, is the digest of the rest of the packet. */
  predicate HashBound(o: Order, sha: string -> string, ms: seq<Member>) {
    "packet_hash" in KeySet(ms) ==>
      ms[IndexOf(ms, "packet_hash")].value == DStr(sha(Canonical(o, DObj(Without(ms, "packet_hash")))))
  }

  function Message(profile: Profile, payload: seq<Byte>): seq<Byte> {
    PreAuth(Encode(profile.payloadType), payload)
  }

  /** The envelope a key holder makes of any payload. */
  function Seal(profile: Profile, scheme: Scheme, seed: seq<Byte>, payload: seq<Byte>): Envelope {
    Envelope(profile.payloadType, Base64.Encode(payload),
             [Signature(profile.keyid, Base64.Encode(scheme.sign(seed, Message(profile, payload))))])
  }

  function Sign(profile: Profile, scheme: Scheme, seed: seq<Byte>, packet: Doc): Option<Envelope> {
    if !packet.DObj? || !Interoperable(packet) then None
    else
      var payload := Encode(Canonical(CodePoint, packet));
      Some(Seal(profile, scheme, seed, payload))
  }

  function KeysNamed(trust: seq<Key>, keyid: string): seq<Key> {
    if trust == [] then []
    else (if trust[0].keyid == keyid then [trust[0]] else []) + KeysNamed(trust[1..], keyid)
  }

  predicate KeyUsable(key: Key, now: int) {
    && key.algorithm == "Ed25519" && key.role == "packet_issuer"
    && key.status == "active" && key.revokedAt == None
    && key.notBefore.Some? && key.notAfter.Some?
    && key.notBefore.value <= now <= key.notAfter.value
  }

  /** The checks on a payload whose signature was accepted. */
  function OpenPayload(v: Verifier, sha: string -> string, payload: seq<Byte>): Option<Doc> {
    match DecodeText(v, payload)
    case None => None
    case Some(text) =>
      if !Accepted(OrderOf(v), text) then None
      else
        var packet := Parse(text).value;
        if packet.DObj? && Interoperable(packet) && HashBound(OrderOf(v), sha, packet.members)
        then Some(packet) else None
  }

  /** Base64 text as each verifier decodes it: only TypeScript refuses the empty text. */
  function DecodeField(v: Verifier, text: string): Option<seq<Byte>> {
    if v == TypeScript && text == "" then None else Base64.DecodeCanonical(text)
  }

  function VerifyEnvelope(v: Verifier, profile: Profile, scheme: Scheme, sha: string -> string,
                          e: Envelope, trust: seq<Key>, now: int): Option<Doc>
  {
    if e.payloadType != profile.payloadType || |e.signatures| != 1 then None
    else
      var keys := KeysNamed(trust, e.signatures[0].keyid);
      if |keys| != 1 || !KeyUsable(keys[0], now) then None
      else VerifyUnder(v, profile, scheme, sha, e, keys[0])
  }

  /** The checks of signature and payload under the key that was found. */
  function VerifyUnder(v: Verifier, profile: Profile, scheme: Scheme, sha: string -> string, e: Envelope, key: Key): Option<Doc>
    requires |e.signatures| == 1
  {
    var payload := DecodeField(v, e.payload);
    var sig := DecodeField(v, e.signatures[0].sig);
    var public := DecodeField(v, key.publicKey);
    if payload.None? || sig.None? || public.None? || |public.value| != 32 then None
    else if !scheme.accepts(public.value, Message(profile, payload.value), sig.value) then None
    else OpenPayload(v, sha, payload.value)
  }

  // ---------- what normalising keeps ----------

  lemma WithoutMeaning(ms: seq<Member>, key: string)
    requires Dict(DObj(ms))
    ensures Dict(DObj(Without(ms, key)))
    ensures Meaning(DObj(Without(ms, key))) == Obj(Meaning(DObj(ms)).members - {key})
  {
    var r := Without(ms, key);
    forall i | 0 <= i < |r|
      ensures Dict(r[i].value) && r[i].key in KeySet(ms) && r[i].key != key
      ensures Meaning(r[i].value) == Meaning(DObj(ms)).members[r[i].key]
    {
      assert r[i] in r;
      ObjectMeaning(ms, r[i]);
    }
    forall k | k in KeySet(ms) && k != key
      ensures k in KeySet(r)
    {
      var m := ms[IndexOf(ms, k)];
      assert m in r;
      ObjectMeaning(r, m);
    }
    assert KeySet(r) == KeySet(ms) - {key};
    DictMeaning(r, Meaning(DObj(ms)).members - {key});
  }

  /** Whether the hash binds depends on the packet's value only. */
  lemma HashBoundByMeaning(o: Order, sha: string -> string, a: seq<Member>, b: seq<Member>)
    requires Dict(DObj(a)) && Dict(DObj(b)) && Meaning(DObj(a)) == Meaning(DObj(b))
    ensures HashBound(o, sha, a) == HashBound(o, sha, b)
  {
    var key := "packet_hash";
    assert KeySet(a) == Meaning(DObj(a)).members.Keys == Meaning(DObj(b)).members.Keys == KeySet(b);
    WithoutMeaning(a, key);
    WithoutMeaning(b, key);
    SameTextIffSameValue(o, DObj(Without(a, key)), DObj(Without(b, key)));
    if key in KeySet(a) {
      MeaningAt(a, IndexOf(a, key));
      MeaningAt(b, IndexOf(b, key));
      StringMeaning(a[IndexOf(a, key)].value, b[IndexOf(b, key)].value);
    }
  }

  lemma StringMeaning(a: Doc, b: Doc)
    requires Meaning(a) == Meaning(b)
    ensures a.DStr? == b.DStr?
    ensures a.DStr? ==> a == b
  {
  }

  /** For an order-safe packet both implementations check the same hash. */
  lemma HashBoundAlike(sha: string -> string, ms: seq<Member>)
    requires Dict(DObj(ms)) && OrderSafe(DObj(ms))
    ensures HashBound(CodePoint, sha, ms) == HashBound(Utf16, sha, ms)
  {
    var r := Without(ms, "packet_hash");
    WithoutMeaning(ms, "packet_hash");
    forall i, j | 0 <= i < j < |r|
      ensures !Conflict(r[i].key, r[j].key)
    {
      assert r[i] in r && r[j] in r;
      var k, l :| 0 <= k < |ms| && 0 <= l < |ms| && ms[k] == r[i] && ms[l] == r[j];
      assert k != l;
      ConflictSymmetric(ms[k].key, ms[l].key);
    }
    forall i | 0 <= i < |r|
      ensures OrderSafe(r[i].value)
    {
      assert r[i] in r;
    }
    ImplementationsAgree(DObj(r));
  }

  lemma {:induction false} NormaliseKeepsRange(o: Order, d: Doc)
    requires Dict(d)
    ensures Interoperable(Normalise(o, d)) == Interoperable(d)
  {
    match d
    case DArr(items) =>
      var n := Normalise(o, d).items;
      forall i | 0 <= i < |items|
        ensures Interoperable(n[i]) == Interoperable(items[i])
      {
        NormaliseKeepsRange(o, items[i]);
      }
      assert Interoperable(d) == forall i :: 0 <= i < |items| ==> Interoperable(n[i]);
    case DObj(ms) =>
      var r := NormalMembers(o, ms);
      var s := Sort(o, r);
      SortSorts(o, r);
      forall i | 0 <= i < |ms|
        ensures Interoperable(r[i].value) == Interoperable(ms[i].value)
      {
        NormaliseKeepsRange(o, ms[i].value);
      }
      if Interoperable(d) {
        forall i | 0 <= i < |s| ensures Interoperable(s[i].value) { assert s[i] in r; }
      }
      if Interoperable(DObj(s)) {
        forall i | 0 <= i < |ms| ensures Interoperable(ms[i].value) { assert r[i] in s; }
      }
    case _ =>
  }

  // ---------- round trip ----------

  /** The text a signer writes, as each verifier reads it. */
  lemma SignedTextAccepted(v: Verifier, packet: Doc)
    requires Dict(packet)
    ensures var text := Canonical(CodePoint, packet);
            Parse(text) == JsonTokens.Ok(Normalise(CodePoint, packet), []) &&
            DecodeText(v, Encode(text)) == Some(text) &&
            (Accepted(OrderOf(v), text) <==> (v == TypeScript ==> OrderSafe(packet)))
  {
    var text, form := Canonical(CodePoint, packet), Normalise(CodePoint, packet);
    StrictInvertsEncode(text);
    LenientInvertsEncode(text);
    NormaliseKeepsMeaning(CodePoint, packet);
    ParseInvertsPrint(form);
    SameTextIffSameValue(OrderOf(v), form, packet);
    ImplementationsAgree(packet);
  }

  lemma SignedHashBound(v: Verifier, sha: string -> string, packet: Doc)
    requires Dict(packet) && packet.DObj? && (v == TypeScript ==> OrderSafe(packet))
    ensures HashBound(OrderOf(v), sha, Normalise(CodePoint, packet).members)
            == HashBound(CodePoint, sha, packet.members)
  {
    NormaliseKeepsMeaning(CodePoint, packet);
    HashBoundByMeaning(OrderOf(v), sha, Normalise(CodePoint, packet).members, packet.members);
    if v == TypeScript { HashBoundAlike(sha, packet.members); }
  }

  /** What each verifier makes of the payload a signer writes. */
  lemma OpenSignedPayload(v: Verifier, sha: string -> string, packet: Doc)
    requires Dict(packet) && packet.DObj? && Interoperable(packet)
    ensures OpenPayload(v, sha, Encode(Canonical(CodePoint, packet))) ==
            if (v == TypeScript ==> OrderSafe(packet)) && HashBound(CodePoint, sha, packet.members)
            then Some(Normalise(CodePoint, packet)) else None
  {
    SignedTextAccepted(v, packet);
    NormaliseKeepsRange(CodePoint, packet);
    if v == TypeScript ==> OrderSafe(packet) { SignedHashBound(v, sha, packet); }
  }

  lemma EncodeNonEmpty(b: seq<Byte>)
    requires b != []
    ensures Base64.Encode(b) != ""
  {
  }

  /** This position of the bundle is the only one with this key id. */
  predicate OnlyAt(trust: seq<Key>, keyid: string, i: int) {
    0 <= i < |trust| && forall j :: 0 <= j < |trust| ==> (trust[j].keyid == keyid <==> j == i)
  }

  /** And the key there may issue packets now. */
  predicate Pinned(trust: seq<Key>, keyid: string, i: int, now: int) {
    && OnlyAt(trust, keyid, i)
    && trust[i].algorithm == "Ed25519" && trust[i].role == "packet_issuer"
    && trust[i].status == "active" && trust[i].revokedAt.None?
    && trust[i].notBefore.Some? && trust[i].notBefore.value <= now
    && trust[i].notAfter.Some? && now <= trust[i].notAfter.value
  }

  lemma {:induction false} NoneNamed(trust: seq<Key>, keyid: string)
    requires forall j :: 0 <= j < |trust| ==> trust[j].keyid != keyid
    ensures KeysNamed(trust, keyid) == []
  {
    if trust != [] { NoneNamed(trust[1..], keyid); }
  }

  lemma {:induction false} OneNamed(trust: seq<Key>, keyid: string, i: int)
    requires OnlyAt(trust, keyid, i)
    ensures KeysNamed(trust, keyid) == [trust[i]]
  {
    if i == 0 { NoneNamed(trust[1..], keyid); } else { OneNamed(trust[1..], keyid, i - 1); }
  }

  lemma {:induction false} KeysNamedIn(trust: seq<Key>, keyid: string)
    ensures KeysNamed(trust, keyid) == [] ==> forall j :: 0 <= j < |trust| ==> trust[j].keyid != keyid
    ensures |KeysNamed(trust, keyid)| == 1 ==> exists i :: OnlyAt(trust, keyid, i)
  {
    if trust != [] {
      var rest := trust[1..];
      KeysNamedIn(rest, keyid);
      assert forall j :: 0 < j < |trust| ==> trust[j] == rest[j - 1];
      if |KeysNamed(trust, keyid)| == 1 {
        if trust[0].keyid == keyid {
          assert OnlyAt(trust, keyid, 0);
        } else {
          var i :| OnlyAt(rest, keyid, i);
          assert OnlyAt(trust, keyid, i + 1);
        }
      }
    }
  }

  /** The verifiers' filter and tests find a pinned key exactly if there is one. */
  lemma PinnedExactly(trust: seq<Key>, keyid: string, now: int)
    ensures var keys := KeysNamed(trust, keyid);
            (|keys| == 1 && KeyUsable(keys[0], now) <==> exists i :: Pinned(trust, keyid, i, now)) &&
            forall i :: Pinned(trust, keyid, i, now) ==> keys == [trust[i]]
  {
    KeysNamedIn(trust, keyid);
    forall i | Pinned(trust, keyid, i, now) ensures KeysNamed(trust, keyid) == [trust[i]] { OneNamed(trust, keyid, i); }
    if |KeysNamed(trust, keyid)| == 1 {
      var i :| OnlyAt(trust, keyid, i);
      OneNamed(trust, keyid, i);
      assert KeyUsable(trust[i], now) ==> Pinned(trust, keyid, i, now);
    }
  }

  /** Every key pinned under the signer's id is the signer's. */
  predicate OwnKeyOnly(profile: Profile, scheme: Scheme, seed: seq<Byte>, trust: seq<Key>) {
    forall k :: k in trust && k.keyid == profile.keyid ==> k.publicKey == Base64.Encode(scheme.publicKey(seed))
  }

  /** The signature and envelope checks pass for anything the signer sealed, if its key is pinned. */
  lemma HonestEnvelope(v: Verifier, profile: Profile, scheme: Scheme, sha: string -> string,
                       seed: seq<Byte>, payload: seq<Byte>, trust: seq<Key>, now: int)
    requires payload != [] && scheme.Correct() && OwnKeyOnly(profile, scheme, seed, trust)
    ensures VerifyEnvelope(v, profile, scheme, sha, Seal(profile, scheme, seed, payload), trust, now) ==
            if exists i :: Pinned(trust, profile.keyid, i, now) then OpenPayload(v, sha, payload) else None
  {
    PinnedExactly(trust, profile.keyid, now);
    if i :| Pinned(trust, profile.keyid, i, now) {
      assert trust[i] in trust;
      var sig := scheme.sign(seed, Message(profile, payload));
      HonestField(v, payload);
      HonestField(v, sig);
      HonestField(v, scheme.publicKey(seed));
    }
  }

  lemma HonestField(v: Verifier, b: seq<Byte>)
    requires b != []
    ensures DecodeField(v, Base64.Encode(b)) == Some(b)
  {
    EncodeNonEmpty(b);
    Base64.CanonicalIffEncoded(Base64.Encode(b), b);
  }

  lemma CanonicalNonEmpty(o: Order, d: Doc)
    requires Dict(d)
    ensures Encode(Canonical(o, d)) != []
  {
    CanonicalReadsBack(o, d);
  }

  // ---------- what acceptance means ----------

  /** Every integer written in the text is one that all implementations read exactly. */
  predicate SafeIntegers(text: string) {
    var ts := JsonTokens.Lex(text);
    ts.Ok? && forall i :: 0 <= i < |ts.value| ==> SafeToken(ts.value[i])
  }

  predicate SafeToken(t: JsonTokens.Token) {
    t.Atom? && t.doc.DNum? ==> -9007199254740991 <= t.doc.number <= 9007199254740991
  }

  predicate SafeTokens(ts: seq<JsonTokens.Token>) { forall i :: 0 <= i < |ts| ==> SafeToken(ts[i]) }

  lemma SafeJoin(a: seq<JsonTokens.Token>, b: seq<JsonTokens.Token>)
    ensures SafeTokens(a + b) <==> SafeTokens(a) && SafeTokens(b)
  {
    if SafeTokens(a + b) {
      forall i | 0 <= i < |a| ensures SafeToken(a[i]) { assert (a + b)[i] == a[i]; }
      forall i | 0 <= i < |b| ensures SafeToken(b[i]) { assert (a + b)[|a| + i] == b[i]; }
    }
  }

  lemma {:induction false} ChunksSafe(d: Doc)
    ensures SafeTokens(Chunks(d)) <==> Interoperable(d)
    decreases d, 1
  {
    match d
    case DArr(items) =>
      var open, close := [JsonTokens.Punct('[')], [JsonTokens.Punct(']')];
      SafeJoin(open + ItemChunks(items), close);
      SafeJoin(open, ItemChunks(items));
      ItemsSafe(items);
    case DObj(ms) =>
      var open, close := [JsonTokens.Punct('{')], [JsonTokens.Punct('}')];
      SafeJoin(open + MemberChunks(ms), close);
      SafeJoin(open, MemberChunks(ms));
      MembersSafe(ms);
    case _ => assert Chunks(d)[0] == JsonTokens.Atom(d);
  }

  lemma {:induction false} ItemsSafe(items: seq<Doc>)
    ensures SafeTokens(ItemChunks(items)) <==> forall i :: 0 <= i < |items| ==> Interoperable(items[i])
    decreases items, 0
  {
    if items != [] {
      ChunksSafe(items[0]);
      if |items| > 1 {
        var comma := [JsonTokens.Punct(',')];
        SafeJoin(Chunks(items[0]) + comma, ItemChunks(items[1..]));
        SafeJoin(Chunks(items[0]), comma);
        ItemsSafe(items[1..]);
        assert items == [items[0]] + items[1..];
      }
    }
  }

  lemma {:induction false} MembersSafe(ms: seq<Member>)
    ensures SafeTokens(MemberChunks(ms)) <==> forall i :: 0 <= i < |ms| ==> Interoperable(ms[i].value)
    decreases ms, 0
  {
    if ms != [] {
      var m, key := ms[0], [JsonTokens.Atom(DStr(ms[0].key)), JsonTokens.Punct(':')];
      ChunksSafe(m.value);
      SafeJoin(key, Chunks(m.value));
      if |ms| > 1 {
        var comma := [JsonTokens.Punct(',')];
        SafeJoin(KeyChunks(m) + comma, MemberChunks(ms[1..]));
        SafeJoin(KeyChunks(m), comma);
        MembersSafe(ms[1..]);
        assert ms == [ms[0]] + ms[1..];
      }
    }
  }

  /** The range test on a value is a test on the integers of its text. */
  lemma TextSafe(o: Order, d: Doc)
    requires Dict(d)
    ensures SafeIntegers(Canonical(o, d)) <==> Interoperable(d)
  {
    var form := Normalise(o, d);
    ChunksSeparated(form);
    JsonTokens.LexInvertsSpell(Chunks(form));
    ChunksSafe(form);
    NormaliseKeepsRange(o, d);
  }

  /** A packet names no hash, or the digest of the text of the packet without it. */
  ghost predicate ClaimHolds(o: Order, sha: string -> string, packet: Value)
    requires packet.Obj?
  {
    "packet_hash" in packet.members ==>
      exists rest :: Dict(rest) && Meaning(rest) == Obj(packet.members - {"packet_hash"}) &&
                     packet.members["packet_hash"] == Str(sha(Canonical(o, rest)))
  }

  lemma ClaimExactly(o: Order, sha: string -> string, ms: seq<Member>)
    requires Dict(DObj(ms))
    ensures HashBound(o, sha, ms) <==> ClaimHolds(o, sha, Meaning(DObj(ms)))
  {
    var key := "packet_hash";
    assert key in Meaning(DObj(ms)).members <==> key in KeySet(ms);
    if key in KeySet(ms) {
      WithoutMeaning(ms, key);
      MeaningAt(ms, IndexOf(ms, key));
      ClaimOf(o, sha, DObj(Without(ms, key)), Meaning(DObj(ms)), ms[IndexOf(ms, key)].value);
    }
  }

  /** A claim against one dictionary that means the rest of the packet. */
  lemma ClaimOf(o: Order, sha: string -> string, rest: Doc, packet: Value, claimed: Doc)
    requires packet.Obj? && "packet_hash" in packet.members && packet.members["packet_hash"] == Meaning(claimed)
    requires Dict(rest) && Meaning(rest) == Obj(packet.members - {"packet_hash"})
    ensures claimed == DStr(sha(Canonical(o, rest))) <==> ClaimHolds(o, sha, packet)
  {
    if ClaimHolds(o, sha, packet) {
      var other :| Dict(other) && Meaning(other) == Obj(packet.members - {"packet_hash"}) &&
                   packet.members["packet_hash"] == Str(sha(Canonical(o, other)));
      ClaimedText(o, sha, rest, other, claimed);
    }
  }

  lemma ClaimedText(o: Order, sha: string -> string, a: Doc, b: Doc, claimed: Doc)
    requires Dict(a) && Dict(b) && Meaning(a) == Meaning(b) && Meaning(claimed) == Str(sha(Canonical(o, b)))
    ensures claimed == DStr(sha(Canonical(o, a)))
  {
    SameTextIffSameValue(o, a, b);
    StringMeaning(claimed, DStr(sha(Canonical(o, b))));
  }

  /** The payload's text is the packet's canonical text, with safe integers and a right hash. */
  ghost predicate Opens(v: Verifier, sha: string -> string, payload: seq<Byte>, packet: Doc) {
    var o := if v == Python then CodePoint else Utf16;
    && Dict(packet) && Parse(Canonical(o, packet)) == JsonTokens.Ok(packet, [])
    && DecodeText(v, payload) == Some(Canonical(o, packet))
    && Meaning(packet).Obj? && SafeIntegers(Canonical(o, packet)) && ClaimHolds(o, sha, Meaning(packet))
  }

  lemma OpensExactly(v: Verifier, sha: string -> string, payload: seq<Byte>, packet: Doc)
    ensures OpenPayload(v, sha, payload) == Some(packet) <==> Opens(v, sha, payload, packet)
  {
    if Dict(packet) {
      TextSafe(OrderOf(v), packet);
      if packet.DObj? { ClaimExactly(OrderOf(v), sha, packet.members); }
    }
  }

  /** The parts of an envelope fit a pinned key. */
  predicate Attested(v: Verifier, profile: Profile, scheme: Scheme, e: Envelope, trust: seq<Key>, now: int,
                     i: int, payload: seq<Byte>, sig: seq<Byte>, public: seq<Byte>)
  {
    && e.payloadType == profile.payloadType && |e.signatures| == 1
    && Pinned(trust, e.signatures[0].keyid, i, now)
    && e.payload == Base64.Encode(payload) && e.signatures[0].sig == Base64.Encode(sig)
    && trust[i].publicKey == Base64.Encode(public) && |public| == 32
    && (v == TypeScript ==> payload != [] && sig != [])
    && scheme.accepts(public, PreAuth(Utf8.Encode(profile.payloadType), payload), sig)
  }

  lemma FieldExactly(v: Verifier, text: string, b: seq<Byte>)
    ensures DecodeField(v, text) == Some(b) <==> Base64.Encode(b) == text && (v == TypeScript ==> b != [])
  {
    Base64.CanonicalIffEncoded(text, b);
    if b != [] { EncodeNonEmpty(b); }
  }

  /**
   * For every envelope and every trust bundle: a packet is accepted exactly if one
   * usable key is pinned under the signature's key id, the signature verifies under
   * it for the payload, and the payload is the packet's canonical text.
   */
  lemma VerifiesExactly(v: Verifier, profile: Profile, scheme: Scheme, sha: string -> string,
                        e: Envelope, trust: seq<Key>, now: int, packet: Doc)
    ensures VerifyEnvelope(v, profile, scheme, sha, e, trust, now) == Some(packet) <==>
            exists i, payload, sig, public ::
              Attested(v, profile, scheme, e, trust, now, i, payload, sig, public) && Opens(v, sha, payload, packet)
  {
    if |e.signatures| == 1 {
      PinnedExactly(trust, e.signatures[0].keyid, now);
      forall i, payload, sig, public | Attested(v, profile, scheme, e, trust, now, i, payload, sig, public)
        ensures VerifyEnvelope(v, profile, scheme, sha, e, trust, now) == OpenPayload(v, sha, payload)
        ensures OpenPayload(v, sha, payload) == Some(packet) <==> Opens(v, sha, payload, packet)
      {
        AttestedOpens(v, profile, scheme, sha, e, trust[i], payload, sig, public);
        OpensExactly(v, sha, payload, packet);
      }
      if VerifyEnvelope(v, profile, scheme, sha, e, trust, now).Some? {
        var i :| Pinned(trust, e.signatures[0].keyid, i, now);
        var payload, sig, public := AcceptedParts(v, profile, scheme, sha, e, trust[i]);
        assert Attested(v, profile, scheme, e, trust, now, i, payload, sig, public);
      }
    }
  }

  lemma AttestedOpens(v: Verifier, profile: Profile, scheme: Scheme, sha: string -> string, e: Envelope, key: Key,
                      payload: seq<Byte>, sig: seq<Byte>, public: seq<Byte>)
    requires |e.signatures| == 1
    requires e.payload == Base64.Encode(payload) && e.signatures[0].sig == Base64.Encode(sig)
    requires key.publicKey == Base64.Encode(public) && |public| == 32
    requires v == TypeScript ==> payload != [] && sig != []
    requires scheme.accepts(public, PreAuth(Utf8.Encode(profile.payloadType), payload), sig)
    ensures VerifyUnder(v, profile, scheme, sha, e, key) == OpenPayload(v, sha, payload)
  {
    FieldExactly(v, e.payload, payload);
    FieldExactly(v, e.signatures[0].sig, sig);
    FieldExactly(v, key.publicKey, public);
  }

  lemma AcceptedParts(v: Verifier, profile: Profile, scheme: Scheme, sha: string -> string, e: Envelope, key: Key)
    returns (payload: seq<Byte>, sig: seq<Byte>, public: seq<Byte>)
    requires |e.signatures| == 1 && VerifyUnder(v, profile, scheme, sha, e, key).Some?
    ensures e.payload == Base64.Encode(payload) && e.signatures[0].sig == Base64.Encode(sig)
    ensures key.publicKey == Base64.Encode(public) && |public| == 32
    ensures v == TypeScript ==> payload != [] && sig != []
    ensures scheme.accepts(public, PreAuth(Utf8.Encode(profile.payloadType), payload), sig)
    ensures OpenPayload(v, sha, payload) == VerifyUnder(v, profile, scheme, sha, e, key)
  {
    payload, sig := DecodeField(v, e.payload).value, DecodeField(v, e.signatures[0].sig).value;
    public := DecodeField(v, key.publicKey).value;
    FieldExactly(v, e.payload, payload);
    FieldExactly(v, e.signatures[0].sig, sig);
    FieldExactly(v, key.publicKey, public);
  }

  /**
   * The signer signs objects whose integers are safe.  Such a packet verifies exactly
   * when the signer's key is pinned and usable, its hash is absent or right and, for
   * TypeScript, its keys sort alike; the verified packet is the signed one.
   */
  lemma SignedPacketVerifies(v: Verifier, profile: Profile, scheme: Scheme, sha: string -> string,
                             seed: seq<Byte>, packet: Doc, trust: seq<Key>, now: int)
    requires Dict(packet) && scheme.Correct() && OwnKeyOnly(profile, scheme, seed, trust)
    ensures Sign(profile, scheme, seed, packet).Some? <==>
            Meaning(packet).Obj? && SafeIntegers(Canonical(CodePoint, packet))
    ensures Sign(profile, scheme, seed, packet).Some? ==>
            var r := VerifyEnvelope(v, profile, scheme, sha, Sign(profile, scheme, seed, packet).value, trust, now);
            (r.Some? <==> (exists i :: Pinned(trust, profile.keyid, i, now)) &&
                          (v == TypeScript ==> OrderSafe(packet)) && ClaimHolds(CodePoint, sha, Meaning(packet))) &&
            (r.Some? ==> r.value == Normalise(CodePoint, packet) && Meaning(r.value) == Meaning(packet))
  {
    TextSafe(CodePoint, packet);
    if packet.DObj? && Interoperable(packet) {
      var payload := Encode(Canonical(CodePoint, packet));
      CanonicalNonEmpty(CodePoint, packet);
      HonestEnvelope(v, profile, scheme, sha, seed, payload, trust, now);
      OpenSignedPayload(v, sha, packet);
      ClaimExactly(CodePoint, sha, packet.members);
      NormaliseKeepsMeaning(CodePoint, packet);
    }
  }

  /** Either verifier accepts only envelopes that the signer's key sealed, around a payload that opens. */
  lemma VerifiedIsSealed(v: Verifier, profile: Profile, scheme: Scheme, sha: string -> string,
                         seed: seq<Byte>, e: Envelope, trust: seq<Key>, now: int) returns (payload: seq<Byte>)
    requires scheme.Unforgeable(seed) && OwnKeyOnly(profile, scheme, seed, trust)
    requires VerifyEnvelope(v, profile, scheme, sha, e, trust, now).Some? && e.signatures[0].keyid == profile.keyid
    ensures e == Seal(profile, scheme, seed, payload)
    ensures OpenPayload(v, sha, payload) == VerifyEnvelope(v, profile, scheme, sha, e, trust, now)
  {
    PinnedExactly(trust, e.signatures[0].keyid, now);
    var i :| Pinned(trust, e.signatures[0].keyid, i, now);
    assert trust[i] in trust;
    var sig, public;
    payload, sig, public := AcceptedParts(v, profile, scheme, sha, e, trust[i]);
    Base64.CanonicalIffEncoded(trust[i].publicKey, public);
    Base64.CanonicalIffEncoded(trust[i].publicKey, scheme.publicKey(seed));
    assert e.signatures == [Signature(profile.keyid, Base64.Encode(sig))];
  }

  /** What Python accepts under the signer's key id, pinned to its key, is exactly what the signer wrote. */
  lemma VerifiedWasSigned(profile: Profile, scheme: Scheme, sha: string -> string,
                          seed: seq<Byte>, e: Envelope, trust: seq<Key>, now: int)
    requires scheme.Unforgeable(seed) && OwnKeyOnly(profile, scheme, seed, trust)
    requires VerifyEnvelope(Python, profile, scheme, sha, e, trust, now).Some? && e.signatures[0].keyid == profile.keyid
    ensures Sign(profile, scheme, seed, VerifyEnvelope(Python, profile, scheme, sha, e, trust, now).value) == Some(e)
  {
    var payload := VerifiedIsSealed(Python, profile, scheme, sha, seed, e, trust, now);
    StrictIffEncoded(payload, DecodeStrict(payload).value);
  }

  lemma SealInjective(profile: Profile, scheme: Scheme, seed: seq<Byte>, a: seq<Byte>, b: seq<Byte>)
    ensures Seal(profile, scheme, seed, a).payload == Seal(profile, scheme, seed, b).payload <==> a == b
  {
    Base64.CanonicalIffEncoded(Base64.Encode(a), a);
    Base64.CanonicalIffEncoded(Base64.Encode(b), b);
  }

  /**
   * What TypeScript accepts so was sealed by the signer's key, around bytes that read as
   * the packet's text; it is the envelope of `Sign` exactly when the bytes are the
   * encoding of that text and the packet's keys sort alike.
   */
  lemma VerifiedByTypeScript(profile: Profile, scheme: Scheme, sha: string -> string,
                             seed: seq<Byte>, e: Envelope, trust: seq<Key>, now: int) returns (payload: seq<Byte>)
    requires scheme.Unforgeable(seed) && OwnKeyOnly(profile, scheme, seed, trust)
    requires VerifyEnvelope(TypeScript, profile, scheme, sha, e, trust, now).Some? && e.signatures[0].keyid == profile.keyid
    ensures e == Seal(profile, scheme, seed, payload)
    ensures var packet := VerifyEnvelope(TypeScript, profile, scheme, sha, e, trust, now).value;
            DecodeText(TypeScript, payload) == Some(Canonical(Utf16, packet)) &&
            (Sign(profile, scheme, seed, packet) == Some(e) <==>
             payload == Encode(Canonical(Utf16, packet)) && OrderSafe(packet))
  {
    payload := VerifiedIsSealed(TypeScript, profile, scheme, sha, seed, e, trust, now);
    var packet := OpenPayload(TypeScript, sha, payload).value;
    CanonicalReadsBack(Utf16, packet);
    SignedByBytes(profile, scheme, seed, packet, payload);
  }

  lemma SignedByBytes(profile: Profile, scheme: Scheme, seed: seq<Byte>, packet: Doc, payload: seq<Byte>)
    requires Dict(packet) && packet.DObj? && Interoperable(packet)
    requires DecodeText(TypeScript, payload) == Some(Canonical(Utf16, packet))
    ensures Sign(profile, scheme, seed, packet) == Some(Seal(profile, scheme, seed, payload)) <==>
            payload == Encode(Canonical(Utf16, packet)) && OrderSafe(packet)
  {
    var text := Canonical(CodePoint, packet);
    SealInjective(profile, scheme, seed, Encode(text), payload);
    ImplementationsAgree(packet);
    LenientInvertsEncode(text);
  }

  // ---------- TypeScript and bytes ----------

  /**
   * TypeScript compares decoded texts: the bytes it accepts for a text are unique
   * exactly when the text has no U+FFFD.  Python's are always unique.
   */
  lemma AcceptedBytesUnique(v: Verifier, text: string)
    requires Accepted(OrderOf(v), text)
    ensures (forall b :: DecodeText(v, b) == Some(text) ==> b == Encode(text))
            <==> (v == TypeScript ==> REPLACEMENT !in text)
  {
    if v == Python {
      forall b | DecodeText(v, b) == Some(text)
        ensures b == Encode(text)
      {
        StrictIffEncoded(b, text);
      }
    } else {
      LenientUniqueIff(text);
      if OneByteForm(text) {
        assert forall b :: DecodeText(v, b) == Some(text) ==> DecodeLenient(b) == text;
      } else {
        var b :| DecodeLenient(b) == text && b != Encode(text);
        assert DecodeText(v, b) == Some(text);
      }
    }
  }

  /** A packet whose text holds U+FFFD. */
  const REPLACED := DObj([Member("k", DStr([REPLACEMENT]))])

  lemma {:induction false} SpelledInText(ts: seq<JsonTokens.Token>, i: nat, c: char)
    requires JsonTokens.AllWellFormed(ts) && i < |ts| && c in JsonTokens.Spelling(ts[i])
    ensures c in JsonTokens.Spell(ts)
    decreases |ts|
  {
    if i > 0 { SpelledInText(ts[1..], i - 1, c); }
  }

  /** The text of an object with one text member. */
  lemma OneMemberText(m: Member, c: char)
    requires m.value.DStr? && c in JsonTokens.PrintString(m.value.text)
    ensures Dict(DObj([m])) && OrderSafe(DObj([m])) && Normalise(CodePoint, DObj([m])) == DObj([m])
    ensures c in Canonical(CodePoint, DObj([m]))
  {
    var ms := [m];
    assert ms[1..] == [];
    assert NormalMembers(CodePoint, ms) == ms && Sort(CodePoint, ms) == ms;
    assert MemberChunks(ms) == KeyChunks(m);
    var ts := Chunks(DObj(ms));
    assert ts[3] == JsonTokens.Atom(m.value);
    SpelledInText(ts, 3, c);
  }

  lemma ReplacedText()
    ensures Dict(REPLACED) && OrderSafe(REPLACED) && Normalise(CodePoint, REPLACED) == REPLACED
    ensures REPLACEMENT in Canonical(CodePoint, REPLACED)
  {
    assert JsonTokens.PrintString([REPLACEMENT])[1] == REPLACEMENT;
    OneMemberText(Member("k", DStr([REPLACEMENT])), REPLACEMENT);
  }

  /** Bytes that are not the encoding of the text, and that TypeScript opens to the same packet. */
  lemma SecondPayload(sha: string -> string) returns (b: seq<Byte>)
    ensures b != [] && b != Encode(Canonical(CodePoint, REPLACED))
    ensures OpenPayload(TypeScript, sha, b) == Some(REPLACED)
    ensures OpenPayload(TypeScript, sha, Encode(Canonical(CodePoint, REPLACED))) == Some(REPLACED)
  {
    var text := Canonical(CodePoint, REPLACED);
    ReplacedText();
    OpenSignedPayload(TypeScript, sha, REPLACED);
    SignedTextAccepted(TypeScript, REPLACED);
    AcceptedBytesUnique(TypeScript, text);
    b :| DecodeText(TypeScript, b) == Some(text) && b != Encode(text);
  }

  /** Two envelopes with different payload bytes, both accepted by TypeScript as the same packet. */
  lemma TwoPayloadsOnePacket(profile: Profile, scheme: Scheme, sha: string -> string, seed: seq<Byte>,
                             trust: seq<Key>, now: int)
    requires scheme.Correct() && OwnKeyOnly(profile, scheme, seed, trust)
    requires exists i :: Pinned(trust, profile.keyid, i, now)
    ensures exists e: Envelope, f: Envelope ::
              e.payload != f.payload &&
              VerifyEnvelope(TypeScript, profile, scheme, sha, e, trust, now) == Some(REPLACED) &&
              VerifyEnvelope(TypeScript, profile, scheme, sha, f, trust, now) == Some(REPLACED)
  {
    var a := Encode(Canonical(CodePoint, REPLACED));
    var b := SecondPayload(sha);
    ReplacedText();
    CanonicalNonEmpty(CodePoint, REPLACED);
    HonestEnvelope(TypeScript, profile, scheme, sha, seed, a, trust, now);
    HonestEnvelope(TypeScript, profile, scheme, sha, seed, b, trust, now);
    SealInjective(profile, scheme, seed, a, b);
    var e, f := Seal(profile, scheme, seed, a), Seal(profile, scheme, seed, b);
    assert VerifyEnvelope(TypeScript, profile, scheme, sha, e, trust, now) == Some(REPLACED);
  }
}
