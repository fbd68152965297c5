/**
 The JWKS key cache: keys are fresh for ttl, then refreshed, and usable up to graceTTL while the
 endpoint fails.  Fetch outcomes and clock readings are inputs; base64 decoding is done beforehand.
 */
module Jwks {
  import opened Wrappers

  type Byte = b: int | 0 <= b < 256

  /** A JSON Web Key with its parameters decoded (None where base64 decoding fails). */
  datatype Jwk = Jwk(kid: string, kty: string, n: Option<seq<Byte>>, e: Option<seq<Byte>>)

  datatype PublicKey = PublicKey(n: nat, e: int)

  type Keys = map<string, PublicKey>

  // ---------------------------------------------------------------- decoding a key

  /** The big-endian value of a byte string. */
  function BigEndian(bytes: seq<Byte>): nat {
    if bytes == [] then 0 else BigEndian(bytes[..|bytes| - 1]) * 256 + bytes[|bytes| - 1]
  }

  const TWO_63 := 0x8000_0000_0000_0000
  const TWO_64 := 0x1_0000_0000_0000_0000

  /** What a 64-bit int holds after wrapping around. */
  function Wrap(x: int): (y: int)
    ensures -TWO_63 <= y < TWO_63
  {
    (x + TWO_63) % TWO_64 - TWO_63
  }

  /** A 64-bit int is the only one of its range that differs by a multiple of 2^64. */
  lemma WrapIsInt64(x: int) returns (k: int)
    ensures -0x8000_0000_0000_0000 <= Wrap(x) < 0x8000_0000_0000_0000
    ensures x - Wrap(x) == k * 0x1_0000_0000_0000_0000
  {
    k := (x + TWO_63) / TWO_64;
  }

  lemma WrapCongruent(x: int, k: int)
    ensures Wrap(x + k * TWO_64) == Wrap(x)
  {
  }

  lemma WrapStep(x: int, b: Byte)
    ensures Wrap(Wrap(Wrap(x) * 256) + b) == Wrap(x * 256 + b)
  {
    var k := (x + TWO_63) / TWO_64;
    assert Wrap(x) == x - k * TWO_64;
    var m := (Wrap(x) * 256 + TWO_63) / TWO_64;
    assert Wrap(Wrap(x) * 256) == Wrap(x) * 256 - m * TWO_64;
    assert Wrap(x) * 256 == x * 256 - (k * 256) * TWO_64;
    assert Wrap(Wrap(x) * 256) + b == (x * 256 + b) + (-(k * 256) - m) * TWO_64;
    WrapCongruent(x * 256 + b, -(k * 256) - m);
  }

  /** The exponent loop, with the wrap-around of Go's shift and addition written out. */
  method DecodeExponent(bytes: seq<Byte>) returns (e: int)
    ensures e == Wrap(BigEndian(bytes))
  {
    e := 0;
    for i := 0 to |bytes|
      invariant e == Wrap(BigEndian(bytes[..i]))
    {
      assert bytes[..i + 1][..i] == bytes[..i];
      WrapStep(BigEndian(bytes[..i]), bytes[i]);
      e := Wrap(Wrap(e * 256) + bytes[i]);
    }
    assert bytes[..|bytes|] == bytes;
  }

  /** The minimal big-endian encoding (Base64urlUInt, section 2 of RFC 7518): zero is one zero octet. */
  function Encode(v: nat): (r: seq<Byte>)
    ensures r != [] && (r[0] == 0 ==> r == [0]) && (v > 0 ==> r[0] != 0)
  {
    if v < 256 then [v] else Encode(v / 256) + [v % 256]
  }

  /** Decoding undoes encoding for every exponent below 2^63. */
  lemma {:induction false} ExponentRoundTrip(v: nat)
    requires v < 0x8000_0000_0000_0000
    ensures Wrap(BigEndian(Encode(v))) == v
  {
    BigEndianOfEncode(v);
  }

  lemma {:induction false} BigEndianOfEncode(v: nat)
    ensures BigEndian(Encode(v)) == v
  {
    if v < 256 {
      assert BigEndian([v]) == BigEndian([]) * 256 + v;
    } else {
      BigEndianOfEncode(v / 256);
      assert Encode(v)[..|Encode(v)| - 1] == Encode(v / 256);
    }
  }

  function ToPublicKey(jwk: Jwk): Option<PublicKey> {
    if jwk.n.None? || jwk.e.None? then None
    else Some(PublicKey(BigEndian(jwk.n.value), Wrap(BigEndian(jwk.e.value))))
  }

  method JwkToRSAPublicKey(jwk: Jwk) returns (r: Option<PublicKey>)
    ensures r == ToPublicKey(jwk)
  {
    if jwk.n.None? || jwk.e.None? {
      return None;
    }
    var e := DecodeExponent(jwk.e.value);
    return Some(PublicKey(BigEndian(jwk.n.value), e));
  }

  // ---------------------------------------------------------------- fetching

  /** The entry is an RSA key whose parameters decode: the modulus as it is, the exponent as an int. */
  predicate Describes(jwk: Jwk, key: PublicKey) {
    && jwk.kty == "RSA" && jwk.n.Some? && jwk.e.Some?
    && key.n == BigEndian(jwk.n.value) && key.e == Wrap(BigEndian(jwk.e.value))
  }

  /** The document carries this key for kid: its last entry with that kid that is an RSA key. */
  predicate Carries(jwks: seq<Jwk>, kid: string, key: PublicKey) {
    exists i | 0 <= i < |jwks| ::
      && jwks[i].kid == kid && Describes(jwks[i], key)
      && forall j | i < j < |jwks| && jwks[j].kid == kid ::
           jwks[j].kty != "RSA" || jwks[j].n.None? || jwks[j].e.None?
  }

  /** A key in its encoded form is read back, modulus for modulus and exponent for exponent. */
  lemma EncodedKeyIsRead(kid: string, n: nat, e: nat)
    requires e < 0x8000_0000_0000_0000
    ensures ToPublicKey(Jwk(kid, "RSA", Some(Encode(n)), Some(Encode(e)))) == Some(PublicKey(n, e))
  {
    BigEndianOfEncode(n);
    ExponentRoundTrip(e);
  }

  /** And a document that ends with it carries it. */
  lemma EncodedKeyIsCarried(before: seq<Jwk>, kid: string, n: nat, e: nat)
    requires e < 0x8000_0000_0000_0000
    ensures var jwk := Jwk(kid, "RSA", Some(Encode(n)), Some(Encode(e)));
            && Carries(before + [jwk], kid, PublicKey(n, e))
            && kid in KeyMap(before + [jwk]) && KeyMap(before + [jwk])[kid] == PublicKey(n, e)
  {
    var jwk := Jwk(kid, "RSA", Some(Encode(n)), Some(Encode(e)));
    var jwks := before + [jwk];
    BigEndianOfEncode(n);
    ExponentRoundTrip(e);
    assert jwks[|before|] == jwk && Describes(jwk, PublicKey(n, e));
    KeyMapCarries(jwks);
  }

  predicate Usable(jwk: Jwk) {
    jwk.kty == "RSA" && ToPublicKey(jwk).Some?
  }

  /** What the endpoint answered: a transport or parsing failure, or a key set. */
  datatype Answer = Unreachable | Document(jwks: seq<Jwk>)

  /** A fetch succeeds when it yields at least one usable key. */
  predicate FetchSucceeds(a: Answer) {
    a.Document? && exists i | 0 <= i < |a.jwks| ::
      a.jwks[i].kty == "RSA" && a.jwks[i].n.Some? && a.jwks[i].e.Some?
  }

  method KeysOf(jwks: seq<Jwk>) returns (newKeys: Keys)
    ensures forall kid, key :: kid in newKeys && newKeys[kid] == key <==> Carries(jwks, kid, key)
    ensures newKeys != map[] <==> FetchSucceeds(Document(jwks))
  {
    newKeys := map[];
    for i := 0 to |jwks|
      invariant newKeys == KeyMap(jwks[..i])
    {
      assert jwks[..i + 1][..i] == jwks[..i];
      if jwks[i].kty != "RSA" {
        continue;
      }
      var publicKey := JwkToRSAPublicKey(jwks[i]);
      if publicKey.None? {
        continue;
      }
      newKeys := newKeys[jwks[i].kid := publicKey.value];
    }
    assert jwks[..|jwks|] == jwks;
    KeyMapCarries(jwks);
  }

  /** The key map a document gives: later entries replace earlier ones with the same kid. */
  function KeyMap(jwks: seq<Jwk>): Keys {
    if jwks == [] then map[]
    else
      var jwk := jwks[|jwks| - 1];
      var keys := KeyMap(jwks[..|jwks| - 1]);
      if Usable(jwk) then keys[jwk.kid := ToPublicKey(jwk).value] else keys
  }

  lemma {:induction false} KeyMapCarries(jwks: seq<Jwk>)
    ensures forall kid, key :: kid in KeyMap(jwks) && KeyMap(jwks)[kid] == key <==> Carries(jwks, kid, key)
    ensures KeyMap(jwks) != map[] <==> FetchSucceeds(Document(jwks))
  {
    if jwks == [] {
    } else {
      var n := |jwks| - 1;
      var init := jwks[..n];
      KeyMapCarries(init);
      forall kid, key
        ensures kid in KeyMap(jwks) && KeyMap(jwks)[kid] == key <==> Carries(jwks, kid, key)
      {
        LastEntryDecides(jwks, kid, key);
      }
      FetchSucceedsSnoc(jwks);
      assert Usable(jwks[n]) ==> jwks[n].kid in KeyMap(jwks);
    }
  }

  lemma OmittedKid(jwks: seq<Jwk>, kid: string)
    ensures kid !in KeyMap(jwks) <==> forall k :: !Carries(jwks, kid, k)
  {
    KeyMapCarries(jwks);
    if kid in KeyMap(jwks) {
      assert Carries(jwks, kid, KeyMap(jwks)[kid]);
    }
  }

  lemma FetchSucceedsSnoc(jwks: seq<Jwk>)
    requires jwks != []
    ensures FetchSucceeds(Document(jwks)) <==>
              FetchSucceeds(Document(jwks[..|jwks| - 1])) || Usable(jwks[|jwks| - 1])
  {
  }

  lemma LastEntryDecides(jwks: seq<Jwk>, kid: string, key: PublicKey)
    requires jwks != []
    ensures var jwk := jwks[|jwks| - 1];
            Carries(jwks, kid, key) <==>
              if Usable(jwk) && jwk.kid == kid then ToPublicKey(jwk) == Some(key)
              else Carries(jwks[..|jwks| - 1], kid, key)
  {
  }

  // ---------------------------------------------------------------- the cache

  datatype Cache = Cache(keys: Keys, lastFetch: int)

  datatype Config = Config(ttl: int, graceTTL: int)

  /** One getPublicKey call: the kid, when the cache is read, and what a fetch would answer and when. */
  datatype Request = Request(kid: string, now: int, answer: Answer, fetchedAt: int)

  predicate IsFresh(cfg: Config, c: Cache, r: Request) {
    r.kid in c.keys && r.now - c.lastFetch < cfg.ttl
  }

  /** The cache after a call: replaced when the call went to the endpoint and got usable keys. */
  function NextCache(cfg: Config, c: Cache, r: Request): Cache {
    if IsFresh(cfg, c, r) || !FetchSucceeds(r.answer) then c
    else Cache(KeyMap(r.answer.jwks), r.fetchedAt)
  }

  function Returned(cfg: Config, c: Cache, r: Request): Option<PublicKey> {
    var cached := if r.kid in c.keys then Some(c.keys[r.kid]) else None;
    if IsFresh(cfg, c, r) then cached
    else if !FetchSucceeds(r.answer) then
      if r.now - c.lastFetch < cfg.graceTTL then cached else None
    else
      var fetched := KeyMap(r.answer.jwks);
      if r.kid in fetched then Some(fetched[r.kid]) else cached
  }

  class KeyStore {
    const config: Config
    var keys: Keys
    var lastFetch: int

    function Value(): Cache
      reads this
    {
      Cache(keys, lastFetch)
    }

    constructor (config: Config, zeroTime: int)
      ensures this.config == config && Value() == Cache(map[], zeroTime)
    {
      this.config := config;
      keys, lastFetch := map[], zeroTime;
    }

    method FetchJWKS(answer: Answer, fetchedAt: int) returns (ok: bool)
      modifies this
      ensures ok == FetchSucceeds(answer)
      ensures Value() == if ok then Cache(KeyMap(answer.jwks), fetchedAt) else old(Value())
    {
      if answer.Unreachable? {
        return false;
      }
      var newKeys := KeysOf(answer.jwks);
      KeyMapCarries(answer.jwks);
      SameKeys(newKeys, KeyMap(answer.jwks), answer.jwks);
      if newKeys == map[] {
        return false;
      }
      keys := newKeys;
      lastFetch := fetchedAt;
      return true;
    }

    method GetPublicKey(r: Request) returns (key: Option<PublicKey>)
      modifies this
      ensures Value() == NextCache(config, old(Value()), r)
      ensures key == Returned(config, old(Value()), r)
    {
      var keyExists := r.kid in keys;
      var cachedKey := if keyExists then Some(keys[r.kid]) else None;
      var cacheAge := r.now - lastFetch;
      if keyExists && cacheAge < config.ttl {
        return cachedKey;
      }
      var ok := FetchJWKS(r.answer, r.fetchedAt);
      if !ok {
        if keyExists {
          if cacheAge < config.graceTTL {
            return cachedKey;
          }
          return None;
        }
        return None;
      }
      if r.kid !in keys {
        if keyExists {
          return cachedKey;
        }
        return None;
      }
      return Some(keys[r.kid]);
    }
  }

  lemma SameKeys(a: Keys, b: Keys, jwks: seq<Jwk>)
    requires forall kid, key :: kid in a && a[kid] == key <==> Carries(jwks, kid, key)
    requires forall kid, key :: kid in b && b[kid] == key <==> Carries(jwks, kid, key)
    ensures a == b
  {
    forall kid ensures kid in a <==> kid in b {
      if kid in a { assert Carries(jwks, kid, a[kid]); }
      if kid in b { assert Carries(jwks, kid, b[kid]); }
    }
    forall kid | kid in a ensures a[kid] == b[kid] {
      assert Carries(jwks, kid, a[kid]);
    }
  }

  // ---------------------------------------------------------------- provenance over serial runs

  function CacheAfter(cfg: Config, zeroTime: int, rs: seq<Request>): Cache {
    if rs == [] then Cache(map[], zeroTime)
    else NextCache(cfg, CacheAfter(cfg, zeroTime, rs[..|rs| - 1]), rs[|rs| - 1])
  }

  /** Did request i of a run go to the endpoint and get usable keys? */
  predicate Refreshed(cfg: Config, zeroTime: int, rs: seq<Request>, i: int)
    requires 0 <= i < |rs|
  {
    !IsFresh(cfg, CacheAfter(cfg, zeroTime, rs[..i]), rs[i]) && FetchSucceeds(rs[i].answer)
  }

  /** Request i made the last successful fetch of the run. */
  ghost predicate LastRefresh(cfg: Config, zeroTime: int, rs: seq<Request>, i: int) {
    && 0 <= i < |rs| && Refreshed(cfg, zeroTime, rs, i)
    && forall j | i < j < |rs| :: !Refreshed(cfg, zeroTime, rs, j)
  }

  /** Whatever the cache holds is what the last successful fetch carried, and is dated by it. */
  lemma {:induction false} CacheIsLastFetch(cfg: Config, zeroTime: int, rs: seq<Request>) returns (i: int)
    ensures var c := CacheAfter(cfg, zeroTime, rs);
            if i < 0 then c == Cache(map[], zeroTime) && forall j | 0 <= j < |rs| :: !Refreshed(cfg, zeroTime, rs, j)
            else LastRefresh(cfg, zeroTime, rs, i) && c == Cache(KeyMap(rs[i].answer.jwks), rs[i].fetchedAt)
  {
    if rs == [] {
      i := -1;
    } else {
      var n := |rs| - 1;
      var init := rs[..n];
      i := CacheIsLastFetch(cfg, zeroTime, init);
      forall j | 0 <= j < n ensures Refreshed(cfg, zeroTime, init, j) == Refreshed(cfg, zeroTime, rs, j) {
        assert init[..j] == rs[..j];
      }
      if Refreshed(cfg, zeroTime, rs, n) {
        i := n;
      }
    }
  }

  /**
   Provenance of every key returned for a kid after a run: a successful fetch carried it, and either
   this call just made that fetch, or the fetch was the last one and is younger than ttl, or is
   younger than graceTTL and this call's own fetch failed, or this call's fetch just dropped the kid.
   */
  lemma KeyProvenance(cfg: Config, zeroTime: int, rs: seq<Request>, r: Request) returns (i: int)
    requires Returned(cfg, CacheAfter(cfg, zeroTime, rs), r).Some?
    ensures var key := Returned(cfg, CacheAfter(cfg, zeroTime, rs), r).value;
            var all := rs + [r];
            && 0 <= i <= |rs| && Refreshed(cfg, zeroTime, all, i)
            && all[i].answer.Document? && Carries(all[i].answer.jwks, r.kid, key)
            && (i < |rs| ==>
                  && LastRefresh(cfg, zeroTime, rs, i)
                  && (|| r.now - rs[i].fetchedAt < cfg.ttl
                      || (!FetchSucceeds(r.answer) && r.now - rs[i].fetchedAt < cfg.graceTTL)
                      || (FetchSucceeds(r.answer) && forall k :: !Carries(r.answer.jwks, r.kid, k))))
  {
    var c := CacheAfter(cfg, zeroTime, rs);
    var all := rs + [r];
    assert all[..|rs|] == rs;
    i := CacheIsLastFetch(cfg, zeroTime, rs);
    if FetchSucceeds(r.answer) { KeyMapCarries(r.answer.jwks); }
    if !IsFresh(cfg, c, r) && FetchSucceeds(r.answer) && r.kid in KeyMap(r.answer.jwks) {
      i := |rs|;
    } else {
      KeyMapCarries(rs[i].answer.jwks);
      assert all[..i] == rs[..i] && all[i] == rs[i];
    }
  }

  /**
   Once the last successful fetch of a run omits a kid, a later call returns a key for it only if it
   fetched again and that fetch carries the kid.
   */
  lemma DroppedKidNeedsRefetch(cfg: Config, zeroTime: int, rs: seq<Request>, i: int, r: Request)
    requires LastRefresh(cfg, zeroTime, rs, i)
    requires forall k :: !Carries(rs[i].answer.jwks, r.kid, k)
    ensures var got := Returned(cfg, CacheAfter(cfg, zeroTime, rs), r);
            got.Some? ==> FetchSucceeds(r.answer) && Carries(r.answer.jwks, r.kid, got.value)
  {
    var j := CacheIsLastFetch(cfg, zeroTime, rs);
    assert j == i;
    OmittedKid(rs[i].answer.jwks, r.kid);
    if FetchSucceeds(r.answer) { KeyMapCarries(r.answer.jwks); }
  }

  /** The call whose own fetch drops a kid returns its old key at any age, even past graceTTL. */
  lemma DroppingCallIgnoresAge(cfg: Config, c: Cache, r: Request)
    requires r.kid in c.keys && !IsFresh(cfg, c, r)
    requires FetchSucceeds(r.answer) && forall k :: !Carries(r.answer.jwks, r.kid, k)
    ensures Returned(cfg, c, r) == Some(c.keys[r.kid])
  {
    OmittedKid(r.answer.jwks, r.kid);
  }

  /**
   And that is the only way past both limits: a key the call's own fetch does not carry is returned
   once the cache is older than ttl and graceTTL if and only if that fetch just dropped a cached kid.
   */
  lemma OverAgedIffDropped(cfg: Config, c: Cache, r: Request)
    requires r.now - c.lastFetch >= cfg.ttl && r.now - c.lastFetch >= cfg.graceTTL
    ensures var got := Returned(cfg, c, r);
            (got.Some? && !(FetchSucceeds(r.answer) && Carries(r.answer.jwks, r.kid, got.value))) <==>
              r.kid in c.keys && FetchSucceeds(r.answer) && forall k :: !Carries(r.answer.jwks, r.kid, k)
  {
    if FetchSucceeds(r.answer) {
      OmittedKid(r.answer.jwks, r.kid);
      KeyMapCarries(r.answer.jwks);
    }
  }

  /**
   Availability during an outage: a kid the last successful fetch carried keeps resolving to that key
   for as long as the fetch is younger than ttl or graceTTL, and not a moment longer.
   */
  lemma AvailableDuringOutage(cfg: Config, zeroTime: int, rs: seq<Request>, i: int, r: Request, key: PublicKey)
    requires LastRefresh(cfg, zeroTime, rs, i) && Carries(rs[i].answer.jwks, r.kid, key)
    requires !FetchSucceeds(r.answer)
    ensures var age := r.now - rs[i].fetchedAt;
            Returned(cfg, CacheAfter(cfg, zeroTime, rs), r) ==
            if age < cfg.ttl || age < cfg.graceTTL then Some(key) else None
  {
    var j := CacheIsLastFetch(cfg, zeroTime, rs);
    assert j == i;
    KeyMapCarries(rs[i].answer.jwks);
  }
}
