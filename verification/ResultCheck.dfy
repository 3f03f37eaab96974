/**
 The worker's re-check of a GPU bundle: every candidate nonce is written into the job's
 blob, the blob is hashed again on the CPU, and the nonce becomes a result when the last
 64-bit word of the hash is below the job's target.
 */
module ResultCheck {
  import opened Bytes

  const TWO_POW_32: nat := 0x1_0000_0000

  type Hash = h: seq<Byte> | |h| == 32 witness seq(32, i => 0)

  type Nonce = n: nat | n < TWO_POW_32

  datatype Family = RandomX | Argon2 | Kawpow | CryptoNight

  /** The parts of a result that depend on the nonce. */
  datatype JobResult = JobResult(nonce: nat, result: Hash, headerHash: seq<Byte>, mixHash: seq<Byte>)

  /** Hash functions the program calls: uninterpreted. */
  datatype Hashers = Hashers(blobHash: seq<Byte> -> Hash, kawpow: (seq<Byte>, nat) -> (Hash, Hash))

  const MAX_BLOB_SIZE: nat := 408

  function NonceOffset(f: Family): nat {
    if f == Kawpow then 32 else 39
  }

  function NonceSize(f: Family): nat {
    if f == Kawpow then 8 else 4
  }

  /** The 64-bit word at byte 24. */
  function LastWord(h: Hash): nat {
    LittleEndian(h[24..32])
  }

  function Reverse(s: seq<Byte>): (r: seq<Byte>)
    ensures |r| == |s|
  {
    seq(|s|, i requires 0 <= i < |s| => s[|s| - 1 - i])
  }

  // ---------------------------------------------------------------------------
  // What the re-check of one nonce means
  // ---------------------------------------------------------------------------

  /** The blob with a nonce stored at the job's nonce offset. */
  function BlobWith(f: Family, blob: seq<Byte>, nonce: Nonce): (b: seq<Byte>)
    requires |blob| == MAX_BLOB_SIZE
    ensures |b| == MAX_BLOB_SIZE
  {
    blob[..NonceOffset(f)] + LittleEndianBytes(nonce, 4) + blob[NonceOffset(f) + 4..]
  }

  /** The result a nonce would give, and the hash compared with the target. */
  function Candidate(f: Family, hs: Hashers, blob: seq<Byte>, size: nat, nonce: Nonce): (JobResult, Hash)
    requires |blob| == MAX_BLOB_SIZE && size <= MAX_BLOB_SIZE
  {
    var b := BlobWith(f, blob, nonce);
    if f == Kawpow then
      var fullNonce := LittleEndian(b[32..40]);
      var (output, mix) := hs.kawpow(b[..32], fullNonce);
      (JobResult(fullNonce, output, b[..32], mix), Reverse(output))
    else
      var h := hs.blobHash(b[..size]);
      (JobResult(nonce, h, [], []), h)
  }

  /** Whether the family's branch hashes at all; the dataset matters to RandomX only. */
  predicate Verifies(f: Family, datasetReady: bool) {
    f == Kawpow || f == CryptoNight || (f == RandomX && datasetReady)
  }

  predicate Accepts(f: Family, hs: Hashers, blob: seq<Byte>, size: nat, target: nat, nonce: Nonce)
    requires |blob| == MAX_BLOB_SIZE && size <= MAX_BLOB_SIZE
  {
    LastWord(Candidate(f, hs, blob, size, nonce).1) < target
  }

  /** The results of the accepted ones among the first k nonces, in order. */
  function Results(f: Family, hs: Hashers, blob: seq<Byte>, size: nat, target: nat, nonces: seq<Nonce>, k: nat): (rs: seq<JobResult>)
    requires |blob| == MAX_BLOB_SIZE && size <= MAX_BLOB_SIZE && k <= |nonces|
    ensures |rs| <= k
  {
    if k == 0 then []
    else
      var n := nonces[k - 1];
      Results(f, hs, blob, size, target, nonces, k - 1) +
      (if Accepts(f, hs, blob, size, target, n) then [Candidate(f, hs, blob, size, n).0] else [])
  }

  // ---------------------------------------------------------------------------
  // The worker, as it works: one blob overwritten in place
  // ---------------------------------------------------------------------------

  class JobBundle {
    const family: Family
    const size: nat
    const target: nat
    const nonces: seq<Nonce>
    const blob: array<Byte>

    constructor (family: Family, size: nat, target: nat, nonces: seq<Nonce>, blob: array<Byte>)
      ensures this.family == family && this.size == size && this.target == target
      ensures this.nonces == nonces && this.blob == blob
    {
      this.family, this.size, this.target, this.nonces, this.blob := family, size, target, nonces, blob;
    }

    /** A job whose blob was accepted holds its nonce inside its size. */
    predicate Valid()
      reads this
    {
      blob.Length == MAX_BLOB_SIZE && NonceOffset(family) + NonceSize(family) <= size < MAX_BLOB_SIZE
    }
  }

  /** The accumulator shared by the bundles of a baton; `errors` is a 32-bit counter. */
  class Tally {
    var results: seq<JobResult>
    var errors: nat

    constructor ()
      ensures results == [] && errors == 0
    {
      results, errors := [], 0;
    }

    /** Adds n errors, wrapping around as the 32-bit counter does. */
    method AddErrors(n: nat)
      modifies this`errors
      ensures errors == (old(errors) + n) % TWO_POW_32
    {
      errors := (errors + n) % TWO_POW_32;
    }

    /** Keeps a result whose hash meets the target and counts an error otherwise. */
    method CheckHash(hash: Hash, target: nat, result: JobResult)
      modifies this
      ensures LastWord(hash) < target ==> results == old(results) + [result] && errors == old(errors)
      ensures LastWord(hash) >= target ==> results == old(results) && errors == (old(errors) + 1) % TWO_POW_32
    {
      if LastWord(hash) < target {
        results := results + [result];
      } else {
        AddErrors(1);
      }
    }
  }

  /** *job.nonce() = nonce */
  method StoreNonce(f: Family, blob: array<Byte>, nonce: Nonce)
    requires blob.Length == MAX_BLOB_SIZE
    modifies blob
    ensures blob[..] == BlobWith(f, old(blob[..]), nonce)
  {
    var bytes := LittleEndianBytes(nonce, 4);
    var off := NonceOffset(f);
    blob[off], blob[off + 1], blob[off + 2], blob[off + 3] := bytes[0], bytes[1], bytes[2], bytes[3];
  }

  /** The blob is the original one but for the nonce bytes. */
  ghost predicate SameButNonce(f: Family, a: seq<Byte>, b: seq<Byte>) {
    && |a| == |b| == MAX_BLOB_SIZE
    && a[..NonceOffset(f)] == b[..NonceOffset(f)]
    && a[NonceOffset(f) + 4..] == b[NonceOffset(f) + 4..]
  }

  lemma BlobDetermined(f: Family, blob: seq<Byte>, blob0: seq<Byte>, nonce: Nonce)
    requires SameButNonce(f, blob, blob0)
    ensures BlobWith(f, blob, nonce) == BlobWith(f, blob0, nonce)
    ensures SameButNonce(f, BlobWith(f, blob, nonce), blob0)
  {
  }

  /** The hash and the prospective result of one nonce, through the bundle's own blob. */
  method HashNonce(bundle: JobBundle, hs: Hashers, nonce: Nonce, ghost blob0: seq<Byte>)
    returns (result: JobResult, hash: Hash)
    requires bundle.Valid() && SameButNonce(bundle.family, bundle.blob[..], blob0)
    modifies bundle.blob
    ensures (result, hash) == Candidate(bundle.family, hs, blob0, bundle.size, nonce)
    ensures SameButNonce(bundle.family, bundle.blob[..], blob0)
  {
    BlobDetermined(bundle.family, bundle.blob[..], blob0, nonce);
    StoreNonce(bundle.family, bundle.blob, nonce);
    ghost var b := BlobWith(bundle.family, blob0, nonce);
    if bundle.family == Kawpow {
      var headerHash := bundle.blob[..32];
      var fullNonce := LittleEndian(bundle.blob[32..40]);
      assert headerHash == b[..32] && bundle.blob[32..40] == b[32..40];
      var (output, mix) := hs.kawpow(headerHash, fullNonce);
      result, hash := JobResult(fullNonce, output, headerHash, mix), Reverse(output);
    } else {
      assert bundle.blob[..bundle.size] == b[..bundle.size];
      var h := hs.blobHash(bundle.blob[..bundle.size]);
      result, hash := JobResult(nonce, h, [], []), h;
    }
  }

  /** The counter after e errors were added to a start value, wrap-around included. */
  ghost predicate Counted(errors: nat, start: nat, e: int) {
    errors % TWO_POW_32 == (start + e) % TWO_POW_32
  }

  lemma CountOne(errors: nat, start: nat, e: int)
    requires Counted(errors, start, e)
    ensures Counted((errors + 1) % TWO_POW_32, start, e + 1)
  {
  }

  /** The branch that hashes: one store, one hash and one check per nonce, on the same blob. */
  method CheckNonces(bundle: JobBundle, tally: Tally, hs: Hashers)
    requires bundle.Valid()
    modifies bundle.blob, tally
    ensures var found := Results(bundle.family, hs, old(bundle.blob[..]), bundle.size, bundle.target, bundle.nonces, |bundle.nonces|);
      && tally.results == old(tally.results) + found
      && Counted(tally.errors, old(tally.errors), |bundle.nonces| - |found|)
    ensures SameButNonce(bundle.family, bundle.blob[..], old(bundle.blob[..]))
  {
    ghost var blob0 := bundle.blob[..];
    ghost var found: seq<JobResult> := [];
    for i := 0 to |bundle.nonces|
      invariant SameButNonce(bundle.family, bundle.blob[..], blob0)
      invariant found == Results(bundle.family, hs, blob0, bundle.size, bundle.target, bundle.nonces, i)
      invariant tally.results == old(tally.results) + found
      invariant Counted(tally.errors, old(tally.errors), i - |found|)
    {
      var result, hash := HashNonce(bundle, hs, bundle.nonces[i], blob0);
      CountOne(tally.errors, old(tally.errors), i - |found|);
      tally.CheckHash(hash, bundle.target, result);
      found := found + (if LastWord(hash) < bundle.target then [result] else []);
    }
  }

  /**
   Re-checks a bundle. A branch that hashes adds exactly the results of the accepted nonces
   and counts the others; a branch that cannot hash counts every nonce as an error.
   */
  method GetResults(bundle: JobBundle, tally: Tally, hs: Hashers, datasetReady: bool)
    requires bundle.Valid()
    modifies bundle.blob, tally
    ensures var found := if Verifies(bundle.family, datasetReady)
                         then Results(bundle.family, hs, old(bundle.blob[..]), bundle.size, bundle.target, bundle.nonces, |bundle.nonces|)
                         else [];
      && tally.results == old(tally.results) + found
      && Counted(tally.errors, old(tally.errors), |bundle.nonces| - |found|)
  {
    if bundle.family == RandomX {
      if !datasetReady {
        tally.AddErrors(|bundle.nonces|);
        return;
      }
      CheckNonces(bundle, tally, hs);
    } else if bundle.family == Argon2 {
      tally.AddErrors(|bundle.nonces|);
    } else {
      CheckNonces(bundle, tally, hs);
    }
  }

  // ---------------------------------------------------------------------------
  // What the results are worth
  // ---------------------------------------------------------------------------

  /** The nonce a KawPow result carries ends in the 32-bit nonce that was checked. */
  lemma FullNonceLowWord(blob: seq<Byte>, nonce: Nonce)
    requires |blob| == MAX_BLOB_SIZE
    ensures LittleEndian(BlobWith(Kawpow, blob, nonce)[32..40]) == nonce + TWO_POW_32 * LittleEndian(blob[36..40])
  {
    var b := BlobWith(Kawpow, blob, nonce);
    assert b[32..40] == LittleEndianBytes(nonce, 4) + blob[36..40];
    LittleEndianConcat(LittleEndianBytes(nonce, 4), blob[36..40]);
    assert Pow256(4) == TWO_POW_32;
    BytesOfLittleEndian(nonce, 4);
  }

  /** The 32-bit nonce a result was found with. */
  function CheckedNonce(r: JobResult): Nonce {
    r.nonce % TWO_POW_32
  }

  /** The first k of some nonces that pass a test. */
  function Filter(p: Nonce -> bool, nonces: seq<Nonce>, k: nat): seq<Nonce>
    requires k <= |nonces|
  {
    if k == 0 then []
    else Filter(p, nonces, k - 1) + (if p(nonces[k - 1]) then [nonces[k - 1]] else [])
  }

  /** The test the re-check applies to a nonce. */
  function Test(f: Family, hs: Hashers, blob: seq<Byte>, size: nat, target: nat): Nonce -> bool
    requires |blob| == MAX_BLOB_SIZE && size <= MAX_BLOB_SIZE
  {
    (n: Nonce) => Accepts(f, hs, blob, size, target, n)
  }

  function Accepted(f: Family, hs: Hashers, blob: seq<Byte>, size: nat, target: nat, nonces: seq<Nonce>): seq<Nonce>
    requires |blob| == MAX_BLOB_SIZE && size <= MAX_BLOB_SIZE
  {
    Filter(Test(f, hs, blob, size, target), nonces, |nonces|)
  }

  /** r is what the re-check promises of a result found with nonce n. */
  ghost predicate Sound(f: Family, hs: Hashers, blob: seq<Byte>, size: nat, target: nat, n: Nonce, r: JobResult)
    requires |blob| == MAX_BLOB_SIZE && size <= MAX_BLOB_SIZE
  {
    && CheckedNonce(r) == n
    && (if f == Kawpow
        then r.headerHash == blob[..32] && (r.result, r.mixHash) == hs.kawpow(blob[..32], r.nonce)
          && LastWord(Reverse(r.result)) < target
        else r.result == hs.blobHash(BlobWith(f, blob, n)[..size]) && LastWord(r.result) < target)
  }

  lemma CandidateIsSound(f: Family, hs: Hashers, blob: seq<Byte>, size: nat, target: nat, n: Nonce)
    requires |blob| == MAX_BLOB_SIZE && size <= MAX_BLOB_SIZE
    requires Accepts(f, hs, blob, size, target, n)
    ensures Sound(f, hs, blob, size, target, n, Candidate(f, hs, blob, size, n).0)
  {
    if f == Kawpow {
      var (r, h) := Candidate(f, hs, blob, size, n);
      FullNonceLowWord(blob, n);
      LowWord(n, LittleEndian(blob[36..40]));
      assert BlobWith(f, blob, n)[..32] == blob[..32];
      assert CheckedNonce(r) == n;
    }
  }

  lemma LowWord(n: Nonce, high: nat)
    ensures (n + TWO_POW_32 * high) % TWO_POW_32 == n
  {
  }

  /**
   Every result is the hash of the blob holding its own nonce, with its last word below the
   target, and the results keep the order of the accepted nonces.
   */
  lemma {:induction false} ResultsAreSound(f: Family, hs: Hashers, blob: seq<Byte>, size: nat, target: nat, nonces: seq<Nonce>, k: nat)
    requires |blob| == MAX_BLOB_SIZE && size <= MAX_BLOB_SIZE && k <= |nonces|
    ensures var rs := Results(f, hs, blob, size, target, nonces, k);
      var ns := Filter(Test(f, hs, blob, size, target), nonces, k);
      |rs| == |ns| && forall i :: 0 <= i < |rs| ==> Sound(f, hs, blob, size, target, ns[i], rs[i])
  {
    if k > 0 {
      var n := nonces[k - 1];
      ResultsAreSound(f, hs, blob, size, target, nonces, k - 1);
      if Accepts(f, hs, blob, size, target, n) {
        CandidateIsSound(f, hs, blob, size, target, n);
      }
    }
  }

  function Count(nonces: seq<Nonce>, k: nat, n: Nonce): nat
    requires k <= |nonces|
  {
    if k == 0 then 0 else Count(nonces, k - 1, n) + (if nonces[k - 1] == n then 1 else 0)
  }

  lemma {:induction false} CountPrefix(a: seq<Nonce>, b: seq<Nonce>, k: nat, n: Nonce)
    requires k <= |a| && a <= b
    ensures Count(a, k, n) == Count(b, k, n)
  {
    if k > 0 {
      CountPrefix(a, b, k - 1, n);
    }
  }

  lemma {:induction false} FilterCount(p: Nonce -> bool, nonces: seq<Nonce>, k: nat, n: Nonce)
    requires k <= |nonces|
    ensures var found := Filter(p, nonces, k);
      Count(found, |found|, n) == if p(n) then Count(nonces, k, n) else 0
  {
    if k > 0 {
      FilterCount(p, nonces, k - 1, n);
      var before, found := Filter(p, nonces, k - 1), Filter(p, nonces, k);
      CountPrefix(before, found, |before|, n);
    }
  }

  /** The 32-bit nonces a list of results was found with. */
  function NoncesOf(rs: seq<JobResult>): (ns: seq<Nonce>)
    ensures |ns| == |rs|
  {
    seq(|rs|, i requires 0 <= i < |rs| => CheckedNonce(rs[i]))
  }

  /** The results carry exactly the accepted nonces, in order. */
  lemma ResultsCarryAccepted(f: Family, hs: Hashers, blob: seq<Byte>, size: nat, target: nat, nonces: seq<Nonce>)
    requires |blob| == MAX_BLOB_SIZE && size <= MAX_BLOB_SIZE
    ensures NoncesOf(Results(f, hs, blob, size, target, nonces, |nonces|)) == Accepted(f, hs, blob, size, target, nonces)
  {
    hide Results, Filter, Test, CheckedNonce;
    ResultsAreSound(f, hs, blob, size, target, nonces, |nonces|);
    var rs, ns := Results(f, hs, blob, size, target, nonces, |nonces|), Accepted(f, hs, blob, size, target, nonces);
    assert forall i :: 0 <= i < |rs| ==> Sound(f, hs, blob, size, target, ns[i], rs[i]);
  }

  /**
   No accepted nonce is missed, none is reported twice for one submission and no other is reported:
   among the results each accepted nonce occurs as often as it was submitted, every other never.
   */
  lemma ResultsAreComplete(f: Family, hs: Hashers, blob: seq<Byte>, size: nat, target: nat, nonces: seq<Nonce>, n: Nonce)
    requires |blob| == MAX_BLOB_SIZE && size <= MAX_BLOB_SIZE
    ensures var found := NoncesOf(Results(f, hs, blob, size, target, nonces, |nonces|));
      Count(found, |found|, n) == if Accepts(f, hs, blob, size, target, n) then Count(nonces, |nonces|, n) else 0
  {
    hide Results, Filter, Accepts;
    ResultsCarryAccepted(f, hs, blob, size, target, nonces);
    FilterCount(Test(f, hs, blob, size, target), nonces, |nonces|, n);
  }
}
