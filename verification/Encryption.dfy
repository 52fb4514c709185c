/**
 Data keys and their rotation (pkg/sqlcache/encryption/encrypt.go). The cipher is a parameter, and so
 are the random bytes, which may fail to be read. Locks make each fetch of a key one step.
 */
module Encryption {
  import opened Prelude

  type Bytes = seq<int>

  /** Sealing and opening under a key and a nonce. */
  datatype Aead = Aead(seal: (Bytes, Bytes, Bytes) -> Bytes, open: (Bytes, Bytes, Bytes) -> Option<Bytes>)

  /** Opening inverts sealing. */
  ghost predicate Correct(aead: Aead) {
    forall key, nonce, data :: aead.open(key, nonce, aead.seal(key, nonce, data)) == Some(data)
  }

  datatype Error = KeyNotFound | NoRandomness | CannotOpen

  const MAX_WRITE_COUNT: int := 0x1_0000_0000
  const TWO_32: int := 0x1_0000_0000
  const TWO_63: int := 0x8000_0000_0000_0000

  /** The 32-bit number that is the same modulo 2^32. */
  function ToUint32(n: nat): (r: nat)
    ensures r < 0x1_0000_0000 && (n - r) % 0x1_0000_0000 == 0
  {
    n % TWO_32
  }

  /** The signed 64-bit number that is the same modulo 2^64. */
  function ToInt64(n: int): (r: int)
    ensures -0x8000_0000_0000_0000 <= r < 0x8000_0000_0000_0000 && (n - r) % 0x1_0000_0000_0000_0000 == 0
  {
    (n + TWO_63) % (2 * TWO_63) - TWO_63
  }

  /** What an encryption returned, and for which data. */
  datatype Sealed = Sealed(data: Bytes, edata: Bytes, nonce: Bytes, keyId: nat)

  datatype Fetched = Fetched(key: Bytes, keyId: nat)

  /** How often each key was handed out, together with the rest of the state. */
  datatype Usage = Usage(keys: seq<Bytes>, uses: seq<nat>, counter: int, calls: nat)

  /** At most 2^32 keys, and fewer than 2^63 - 1 fetches. */
  predicate Bounded(u: Usage) { |u.keys| <= TWO_32 && u.calls < TWO_63 - 1 }

  /** Every key was handed out fewer than the maximum number of times; the counter bounds the uses of
      the active key until it asks for a rotation. */
  ghost predicate Worn(u: Usage) {
    && |u.uses| == |u.keys|
    && 0 <= u.counter <= u.calls + 1
    && (forall i :: 0 <= i < |u.uses| ==> u.uses[i] < MAX_WRITE_COUNT)
    && (u.keys != [] && u.counter < MAX_WRITE_COUNT ==> u.uses[|u.uses| - 1] <= u.counter)
  }

  lemma WrapSmall(n: int)
    requires 0 <= n < TWO_63
    ensures ToInt64(n) == n
  {
  }

  lemma KeyIdFits(n: nat)
    requires n < TWO_32
    ensures ToUint32(n) == n
  {
  }

  /** Handing out the active key keeps the bound. */
  lemma HandOutKeeps(u: Usage)
    requires Worn(u) && Bounded(u.(calls := u.calls + 1)) && u.keys != [] && u.counter + 1 < MAX_WRITE_COUNT
    ensures Worn(u.(uses := u.uses[|u.uses| - 1 := u.uses[|u.uses| - 1] + 1], counter := u.counter + 1,
                    calls := u.calls + 1))
  {
  }

  /** So does rotating, whose new key is handed out once. */
  lemma RotateKeeps(u: Usage, key: Bytes, first: nat)
    requires Worn(u) && first <= 1
    ensures Worn(u.(keys := u.keys + [key], uses := u.uses + [first], counter := 1))
  {
    assert (u.uses + [first])[|u.uses|] == first;
  }

  /** Entries of the log open under the key they name. */
  ghost predicate Opens(aead: Aead, keys: seq<Bytes>, e: Sealed) {
    e.keyId < |keys| && e.edata == aead.seal(keys[e.keyId], e.nonce, e.data)
  }

  class Manager {
    const aead: Aead
    /** What each reading of random bytes yields. */
    const random: nat -> Option<Bytes>
    var draws: nat
    var dataKeys: seq<Bytes>
    var activeKeyCounter: int
    ghost var uses: seq<nat>
    ghost var calls: nat
    ghost var log: set<Sealed>

    ghost function State(): Usage
      reads this
    {
      Usage(dataKeys, uses, activeKeyCounter, calls)
    }

    /** As long as the state is bounded, no key is worn out and everything logged opens. */
    ghost predicate Valid()
      reads this
    {
      Bounded(State()) ==> Worn(State()) && forall e :: e in log ==> Opens(aead, dataKeys, e)
    }

    /** The first key is made at once; if that fails there is none yet. */
    constructor (aead: Aead, random: nat -> Option<Bytes>)
      ensures this.aead == aead && this.random == random && Valid() && log == {} && calls == 0 && draws == 1
      ensures dataKeys == if random(0).Some? then [random(0).value] else []
      ensures activeKeyCounter == if random(0).Some? then 1 else 0
    {
      this.aead := aead;
      this.random := random;
      dataKeys, activeKeyCounter, uses, calls, log, draws := [], 0, [], 0, {}, 0;
      new;
      var _ := NewDataEncryptionKey(0);
    }

    /** Adds a random key, to be handed out `first` times at once. */
    method NewDataEncryptionKey(ghost first: nat) returns (r: Result<Fetched, Error>)
      requires first <= 1 && (Bounded(State()) ==> Worn(State()))
      modifies this`dataKeys, this`activeKeyCounter, this`uses, this`draws
      ensures Bounded(State()) ==> Worn(State())
      ensures draws == old(draws) + 1 && (r.Ok? <==> random(old(draws)).Some?)
      ensures r.Err? ==> dataKeys == old(dataKeys) && uses == old(uses) && activeKeyCounter == old(activeKeyCounter)
      ensures r.Ok? ==>
                && r.value.key == random(old(draws)).value && activeKeyCounter == 1
                && dataKeys == old(dataKeys) + [r.value.key] && uses == old(uses) + [first]
                && r.value.keyId == ToUint32(|dataKeys| - 1)
    {
      var dek := random(draws);
      draws := draws + 1;
      if dek.None? {
        return Err(NoRandomness);
      }
      if Bounded(State()) {
        RotateKeeps(State(), dek.value, first);
      }
      activeKeyCounter := 1;
      dataKeys := dataKeys + [dek.value];
      uses := uses + [first];
      return Ok(Fetched(dek.value, ToUint32(|dataKeys| - 1)));
    }

    method ActiveKey() returns (r: Result<Fetched, Error>)
      ensures r.Ok? <==> dataKeys != []
      ensures r.Ok? ==> r.value.keyId == ToUint32(|dataKeys| - 1) < |dataKeys| && r.value.key == dataKeys[r.value.keyId]
    {
      var nk := |dataKeys|;
      if nk == 0 {
        return Err(KeyNotFound);
      }
      var keyId := ToUint32(nk - 1);
      return Ok(Fetched(dataKeys[keyId], keyId));
    }

    /** Hands out the active key, rotating it first when it is about to wear out. */
    method FetchActiveDataKey() returns (r: Result<Fetched, Error>)
      requires Valid()
      modifies this`dataKeys, this`activeKeyCounter, this`uses, this`calls, this`draws
      ensures Valid() && old(dataKeys) <= dataKeys && calls == old(calls) + 1
      ensures Bounded(State()) ==>
                if old(activeKeyCounter) + 1 < 0x1_0000_0000
                then dataKeys == old(dataKeys) && activeKeyCounter == old(activeKeyCounter) + 1 && draws == old(draws)
                     && (r.Ok? <==> dataKeys != [])
                else draws == old(draws) + 1 && (r.Ok? <==> random(old(draws)).Some?)
                     && (r.Ok? ==> dataKeys == old(dataKeys) + [random(old(draws)).value] && activeKeyCounter == 1)
      ensures r.Ok? && Bounded(State()) ==>
                var i := |dataKeys| - 1;
                && |old(uses)| == |old(dataKeys)| && r.value.keyId == i && r.value.key == dataKeys[i]
                && (if i < |old(dataKeys)| then uses == old(uses)[i := old(uses)[i] + 1] else uses == old(uses) + [1])
      ensures r.Err? ==> dataKeys == old(dataKeys) && uses == old(uses)
    {
      ghost var before := State();
      calls := calls + 1;
      activeKeyCounter := ToInt64(activeKeyCounter + 1);
      if Bounded(State()) {
        WrapSmall(before.counter + 1);
      }
      if activeKeyCounter >= MAX_WRITE_COUNT {
        r := NewDataEncryptionKey(1);
        if r.Ok? && Bounded(State()) {
          KeyIdFits(|dataKeys| - 1);
        }
        OpensMore(old(dataKeys));
        return;
      }
      r := ActiveKey();
      if r.Ok? {
        if Bounded(State()) {
          HandOutKeeps(before);
          KeyIdFits(|dataKeys| - 1);
        }
        if r.value.keyId < |uses| {
          uses := uses[r.value.keyId := uses[r.value.keyId] + 1];
        }
      }
    }

    /** More keys do no harm to the log. */
    lemma OpensMore(keys: seq<Bytes>)
      requires keys <= dataKeys
      ensures forall e :: Opens(aead, keys, e) ==> Opens(aead, dataKeys, e)
    {
    }

    /** Encrypts with the active key and a random nonce; no random bytes are used twice. */
    method Encrypt(data: Bytes) returns (r: Result<Sealed, Error>)
      requires Valid()
      modifies this
      ensures Valid() && old(dataKeys) <= dataKeys && old(log) <= log
      ensures r.Ok? ==> r.value.data == data && r.value in log
      ensures r.Err? ==> log == old(log)
      ensures Bounded(State()) ==>
                var rotates := old(activeKeyCounter) + 1 >= 0x1_0000_0000;
                var at := if rotates then old(draws) + 1 else old(draws);
                var keyed := if rotates then random(old(draws)).Some? else old(dataKeys) != [];
                && (r.Ok? <==> keyed && random(at).Some?)
                && draws == (if keyed then at + 1 else at)
                && (r.Ok? ==>
                      var i := |dataKeys| - 1;
                      r.value == Sealed(data, aead.seal(dataKeys[i], random(at).value, data), random(at).value, i))
    {
      var dek := FetchActiveDataKey();
      if dek.Err? {
        return Err(dek.error);
      }
      var nonce := random(draws);
      draws := draws + 1;
      if nonce.None? {
        return Err(NoRandomness);
      }
      var e := Sealed(data, aead.seal(dek.value.key, nonce.value, data), nonce.value, dek.value.keyId);
      log := log + {e};
      return Ok(e);
    }

    /** Decrypts with the key named; whatever was encrypted before, under whichever key, comes back. */
    method Decrypt(edata: Bytes, nonce: Bytes, keyId: nat) returns (r: Result<Bytes, Error>)
      requires Valid()
      ensures forall data :: Correct(aead) && Bounded(State()) && Sealed(data, edata, nonce, keyId) in log ==> r == Ok(data)
      ensures r == if keyId >= |dataKeys| then Err(KeyNotFound)
                   else match aead.open(dataKeys[keyId], nonce, edata)
                        case Some(data) => Ok(data)
                        case None => Err(CannotOpen)
    {
      if |dataKeys| <= keyId {
        return Err(KeyNotFound);
      }
      var data := aead.open(dataKeys[keyId], nonce, edata);
      return if data.Some? then Ok(data.value) else Err(CannotOpen);
    }
  }

  /** No key is handed out more than the limit of section 8.3 of NIST SP 800-38D, in any reachable state. */
  lemma NoKeyWornOut(m: Manager, i: nat)
    requires m.Valid() && Bounded(m.State()) && i < |m.dataKeys|
    ensures i < |m.uses| && m.uses[i] < 0x1_0000_0000
  {
  }
}
