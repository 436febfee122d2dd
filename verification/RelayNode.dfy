/** The relay node (src/relay/mod.rs, src/relay/dedup.rs): submit once, then answer from the proof cache. */
module RelayNode {
  import opened Core
  import opened Lru

  datatype RpcError =
    | Http(status: nat)
    | TransactionRejected(reason: string)
    | Network(message: string)
    | Timeout(timeoutMs: nat)

  datatype Result<T> = Ok(value: T) | Err(error: RpcError)

  /** A relay proof signs the transaction id, the ledger hash and the ledger sequence. */
  datatype RelayProof = RelayProof(txId: Bytes, chainHash: Bytes, sequence: nat)

  type ProofCache = seq<(Key, RelayProof)>

  /** What the RPC node would answer during one call: the k-th submission and the two ledger lookups. */
  datatype Rpc = Rpc(submit: nat -> Result<string>, ledgerSequence: Result<nat>, ledgerHash: Result<string>)

  datatype Config = Config(capacity: nat, maxAttempts: nat)

  /** A zero cache capacity is replaced by 1000. */
  function CacheCapacity(cfg: Config): (n: nat)
    ensures n > 0
  {
    if cfg.capacity == 0 then 1000 else cfg.capacity
  }

  // ---- Hash decoding ------------------------------------------------------------------------------

  function HexDigit(c: char): (d: Option<nat>)
    ensures d.Some? ==> d.value < 16
  {
    if '0' <= c <= '9' then Some(c as int - '0' as int)
    else if 'a' <= c <= 'f' then Some(c as int - 'a' as int + 10)
    else if 'A' <= c <= 'F' then Some(c as int - 'A' as int + 10)
    else None
  }

  function HexDecode(s: string): (b: Option<Bytes>)
    ensures b.Some? ==> |s| == 2 * |b.value|
  {
    if s == [] then Some([])
    else if |s| == 1 then None
    else
      var hi, lo, rest := HexDigit(s[0]), HexDigit(s[1]), HexDecode(s[2..]);
      if hi.Some? && lo.Some? && rest.Some?
      then Some([16 * hi.value + lo.value] + rest.value) else None
  }

  /** `decode_hash_32`: an optional "0x", then exactly 32 hexadecimal bytes. */
  function DecodeHash32(hash: string): (b: Option<Bytes>)
    ensures b.Some? ==> |b.value| == 32
  {
    var digits := if "0x" <= hash then hash[2..] else hash;
    var bytes := HexDecode(digits);
    if bytes.Some? && |bytes.value| == 32 then bytes else None
  }

  function HexChar(n: nat): char
    requires n < 16
  {
    if n < 10 then '0' + n as char else 'a' + (n - 10) as char
  }

  function HexEncode(b: Bytes): string
  {
    if b == [] then [] else [HexChar(b[0] / 16), HexChar(b[0] % 16)] + HexEncode(b[1..])
  }

  lemma {:induction false} HexDecodeOfEncode(b: Bytes)
    ensures HexDecode(HexEncode(b)) == Some(b)
  {
    if b == [] {
    } else {
      HexDecodeOfEncode(b[1..]);
      assert HexEncode(b)[2..] == HexEncode(b[1..]);
      assert b == [b[0]] + b[1..];
    }
  }

  /** The hash of 32 bytes is read back, with or without the "0x". */
  lemma HashRoundTrip(b: Bytes)
    requires |b| == 32
    ensures DecodeHash32(HexEncode(b)) == Some(b) && DecodeHash32("0x" + HexEncode(b)) == Some(b)
  {
    HexDecodeOfEncode(b);
    assert HexEncode(b)[1] != 'x';
    assert ("0x" + HexEncode(b))[2..] == HexEncode(b);
  }

  ghost predicate IsHexDigit(c: char)
  {
    '0' <= c <= '9' || 'a' <= c <= 'f' || 'A' <= c <= 'F'
  }

  /** Exactly what is hexadecimal: an even number of digits. */
  lemma {:induction false} HexDecodesIff(s: string)
    ensures HexDecode(s).Some? <==> |s| % 2 == 0 && forall i :: 0 <= i < |s| ==> IsHexDigit(s[i])
    decreases |s|
  {
    if |s| <= 1 {
    } else {
      HexDecodesIff(s[2..]);
      if forall i :: 0 <= i < |s[2..]| ==> IsHexDigit(s[2..][i]) {
        forall i | 2 <= i < |s| ensures IsHexDigit(s[i]) { assert s[2..][i - 2] == s[i]; }
      }
    }
  }

  ghost function LowerCase(s: string): (r: string)
    ensures |r| == |s|
  {
    seq(|s|, i requires 0 <= i < |s| => if 'A' <= s[i] <= 'F' then s[i] + 32 as char else s[i])
  }

  /** Upper and lower case digits decode alike. */
  lemma {:induction false} HexIgnoresCase(s: string)
    ensures HexDecode(LowerCase(s)) == HexDecode(s)
    decreases |s|
  {
    if |s| <= 1 {
    } else {
      HexIgnoresCase(s[2..]);
      assert LowerCase(s)[2..] == LowerCase(s[2..]);
    }
  }

  /** Exactly what is accepted as a hash: 64 hexadecimal digits, with or without "0x" in front. */
  lemma HashAcceptedIff(hash: string)
    ensures var digits := if "0x" <= hash then hash[2..] else hash;
            DecodeHash32(hash).Some? <==> |digits| == 64 && forall i :: 0 <= i < 64 ==> IsHexDigit(digits[i])
  {
    HexDecodesIff(if "0x" <= hash then hash[2..] else hash);
    hide HexDecode, IsHexDigit;
  }

  // ---- Submission with retry ----------------------------------------------------------------------

  predicate Transient(r: Result<string>)
  {
    r.Err? && !r.error.TransactionRejected?
  }

  function AttemptsFrom(submit: nat -> Result<string>, maxAttempts: nat, k: nat): (n: nat)
    ensures n > 0
    decreases maxAttempts - k
  {
    if Transient(submit(k)) && k + 1 < maxAttempts then AttemptsFrom(submit, maxAttempts, k + 1) else k + 1
  }

  /** How often one call submits. */
  function Attempts(submit: nat -> Result<string>, maxAttempts: nat): (n: nat)
    ensures n > 0
  {
    AttemptsFrom(submit, maxAttempts, 0)
  }

  lemma {:induction false} AttemptsFromMeaning(submit: nat -> Result<string>, maxAttempts: nat, k: nat)
    ensures var n := AttemptsFrom(submit, maxAttempts, k);
            && k < n <= Max(k + 1, maxAttempts)
            && (forall j :: k <= j < n - 1 ==> Transient(submit(j)))
            && (Transient(submit(n - 1)) ==> n >= maxAttempts)
    decreases maxAttempts - k
  {
    if !Transient(submit(k)) || k + 1 >= maxAttempts {
    } else {
      AttemptsFromMeaning(submit, maxAttempts, k + 1);
    }
  }

  /** One call submits between once and max(1, max_attempts) times; only transient failures are retried, and
      a transient failure is final only when the attempts are used up. */
  lemma SubmissionsBounded(submit: nat -> Result<string>, maxAttempts: nat)
    ensures var n := Attempts(submit, maxAttempts);
            && 1 <= n <= Max(1, maxAttempts)
            && (forall j :: 0 <= j < n - 1 ==> submit(j).Err? && !submit(j).error.TransactionRejected?)
            && (submit(n - 1).Err? && !submit(n - 1).error.TransactionRejected? ==> n == Max(1, maxAttempts))
  {
    AttemptsFromMeaning(submit, maxAttempts, 0);
  }

  // ---- One call -----------------------------------------------------------------------------------

  /** The proof a call obtains from the ledger after a successful submission, or the error. */
  function LedgerProof(txHash: string, rpc: Rpc): Result<RelayProof>
  {
    var txId := DecodeHash32(txHash);
    if txId.None? then Err(Network("invalid transaction hash"))
    else if rpc.ledgerSequence.Err? then Err(rpc.ledgerSequence.error)
    else if rpc.ledgerHash.Err? then Err(rpc.ledgerHash.error)
    else
      var chainHash := DecodeHash32(rpc.ledgerHash.value);
      if chainHash.None? then Err(Network("invalid ledger hash"))
      else Ok(RelayProof(txId.value, chainHash.value, rpc.ledgerSequence.value))
  }

  datatype Effects = Effects(submissions: nat, retries: nat, submitted: nat, rejected: nat, rewarded: bool)

  const NO_EFFECTS := Effects(0, 0, 0, 0, false)

  datatype Outcome = Outcome(result: Result<RelayProof>, cache: ProofCache, effects: Effects)

  /** `process_envelope` on values. */
  function Process(cfg: Config, cache: ProofCache, id: Key, rpc: Rpc): Outcome
  {
    var hit := Find(cache, id);
    if hit.Some? then Outcome(Ok(hit.value), Touch(cache, id), NO_EFFECTS)
    else
      var n := Attempts(rpc.submit, cfg.maxAttempts);
      var last := rpc.submit(n - 1);
      if last.Err? then
        Outcome(Err(last.error), cache, Effects(n, n - 1, 0, if last.error.TransactionRejected? then 1 else 0, false))
      else
        var proof := LedgerProof(last.value, rpc);
        if proof.Err? then Outcome(Err(proof.error), cache, Effects(n, n - 1, 1, 0, false))
        else Outcome(proof, Put(cache, id, proof.value, CacheCapacity(cfg)), Effects(n, n - 1, 1, 0, true))
  }

  class RelayNode {
    const cfg: Config
    var cache: ProofCache
    var transactionsSubmitted: nat
    var transactionsRejected: nat
    var submissionRetries: nat

    constructor (cfg: Config)
      ensures this.cfg == cfg && cache == []
      ensures transactionsSubmitted == transactionsRejected == submissionRetries == 0
    {
      this.cfg := cfg;
      cache := [];
      transactionsSubmitted, transactionsRejected, submissionRetries := 0, 0, 0;
    }

    method SubmitWithRetry(rpc: Rpc) returns (r: Result<string>, submissions: nat)
      modifies this`submissionRetries
      ensures submissions == Attempts(rpc.submit, cfg.maxAttempts)
      ensures r == rpc.submit(submissions - 1)
      ensures submissionRetries == old(submissionRetries) + submissions - 1
    {
      var attempt := 0;
      while true
        invariant Attempts(rpc.submit, cfg.maxAttempts) == AttemptsFrom(rpc.submit, cfg.maxAttempts, attempt)
        invariant submissionRetries == old(submissionRetries) + attempt
        decreases cfg.maxAttempts - attempt
      {
        attempt := attempt + 1;
        r := rpc.submit(attempt - 1);
        if r.Ok? { return r, attempt; }
        if r.error.TransactionRejected? { return r, attempt; }
        if attempt >= cfg.maxAttempts { return r, attempt; }
        submissionRetries := submissionRetries + 1;
      }
    }

    /** `reputation` is that of the peer passed in, if any; a first success rewards it by 5, up to 100. */
    method ProcessEnvelope(id: Key, rpc: Rpc, reputation: Option<nat>)
      returns (r: Result<RelayProof>, reputation': Option<nat>, submissions: nat)
      modifies this
      ensures var o := Process(cfg, old(cache), id, rpc);
              && r == o.result && cache == o.cache && submissions == o.effects.submissions
              && submissionRetries == old(submissionRetries) + o.effects.retries
              && transactionsSubmitted == old(transactionsSubmitted) + o.effects.submitted
              && transactionsRejected == old(transactionsRejected) + o.effects.rejected
              && reputation' == if o.effects.rewarded && reputation.Some?
                                then Some(Min(reputation.value + 5, 100)) else reputation
    {
      reputation', submissions := reputation, 0;
      var hit := Find(cache, id);
      if hit.Some? {
        cache := Touch(cache, id);
        return Ok(hit.value), reputation, 0;
      }
      var hash;
      hash, submissions := SubmitWithRetry(rpc);
      if hash.Err? {
        if hash.error.TransactionRejected? { transactionsRejected := transactionsRejected + 1; }
        return Err(hash.error), reputation, submissions;
      }
      transactionsSubmitted := transactionsSubmitted + 1;
      var proof := LedgerProof(hash.value, rpc);
      if proof.Err? { return Err(proof.error), reputation, submissions; }
      cache := Put(cache, id, proof.value, CacheCapacity(cfg));
      if reputation.Some? { reputation' := Some(Min(reputation.value + 5, 100)); }
      r := proof;
    }
  }

  /** On a miss, when the k-th submission is the first accepted one and comes within the attempts, and the
      ledger answers, the proof returned signs exactly the accepted hash, the ledger hash and the sequence. */
  lemma ProofBindsLedger(cfg: Config, cache: ProofCache, id: Key, rpc: Rpc, k: nat, txId: Bytes, chainHash: Bytes,
                         sequence: nat)
    requires Find(cache, id).None? && |txId| == 32 && |chainHash| == 32
    requires k == 0 || k < cfg.maxAttempts
    requires rpc.submit(k) == Ok(HexEncode(txId))
    requires forall j :: 0 <= j < k ==> rpc.submit(j).Err? && !rpc.submit(j).error.TransactionRejected?
    requires rpc.ledgerHash == Ok(HexEncode(chainHash)) && rpc.ledgerSequence == Ok(sequence)
    ensures var o := Process(cfg, cache, id, rpc);
            && o.result == Ok(RelayProof(txId, chainHash, sequence))
            && o.effects == Effects(k + 1, k, 1, 0, true)
  {
    FirstAcceptedIsLast(rpc.submit, cfg.maxAttempts, k);
    LedgerAnswers(rpc, txId, chainHash, sequence);
    hide *;
    FreshProof(cfg, cache, id, rpc, k + 1, HexEncode(txId));
  }

  lemma FreshProof(cfg: Config, cache: ProofCache, id: Key, rpc: Rpc, n: nat, hash: string)
    requires Find(cache, id).None? && n == Attempts(rpc.submit, cfg.maxAttempts) && rpc.submit(n - 1) == Ok(hash)
    requires LedgerProof(hash, rpc).Ok?
    ensures Process(cfg, cache, id, rpc).result == LedgerProof(hash, rpc)
    ensures Process(cfg, cache, id, rpc).effects == Effects(n, n - 1, 1, 0, true)
  {
    hide Attempts, LedgerProof, Find, Put, Touch;
  }

  lemma LedgerAnswers(rpc: Rpc, txId: Bytes, chainHash: Bytes, sequence: nat)
    requires |txId| == 32 && |chainHash| == 32
    requires rpc.ledgerHash == Ok(HexEncode(chainHash)) && rpc.ledgerSequence == Ok(sequence)
    ensures LedgerProof(HexEncode(txId), rpc) == Ok(RelayProof(txId, chainHash, sequence))
  {
    HashRoundTrip(txId);
    HashRoundTrip(chainHash);
    hide DecodeHash32, HexEncode;
  }

  lemma FirstAcceptedIsLast(submit: nat -> Result<string>, maxAttempts: nat, k: nat)
    requires k == 0 || k < maxAttempts
    requires submit(k).Ok? && forall j :: 0 <= j < k ==> Transient(submit(j))
    ensures Attempts(submit, maxAttempts) == k + 1
  {
    SubmissionsBounded(submit, maxAttempts);
    var n := Attempts(submit, maxAttempts);
    hide Attempts;
    assert Transient(submit(n - 1)) ==> k < n;
  }

  // ---- Runs ---------------------------------------------------------------------------------------

  datatype Call = Call(id: Key, rpc: Rpc)

  ghost function RunCache(cfg: Config, cache: ProofCache, calls: seq<Call>): ProofCache
  {
    if calls == [] then cache
    else
      var c := calls[|calls| - 1];
      Process(cfg, RunCache(cfg, cache, calls[..|calls| - 1]), c.id, c.rpc).cache
  }

  /** The ids other than `id` that were cached or hit since the last call that returned a proof for `id`. */
  ghost function OthersSince(cfg: Config, cache: ProofCache, calls: seq<Call>, id: Key): set<Key>
  {
    if calls == [] then {}
    else
      var pre, c := calls[..|calls| - 1], calls[|calls| - 1];
      var recent := OthersSince(cfg, cache, pre, id);
      if Process(cfg, RunCache(cfg, cache, pre), c.id, c.rpc).result.Err? then recent
      else if c.id == id then {}
      else recent + {c.id}
  }

  ghost predicate CacheValid(cfg: Config, cache: ProofCache)
  {
    Distinct(cache) && |cache| <= CacheCapacity(cfg)
  }

  lemma ProcessKeepsCacheValid(cfg: Config, cache: ProofCache, id: Key, rpc: Rpc)
    requires CacheValid(cfg, cache)
    ensures CacheValid(cfg, Process(cfg, cache, id, rpc).cache)
  {
    var proof := Process(cfg, cache, id, rpc).result;
    if proof.Ok? { UseKeepsBound(cache, id, proof.value, CacheCapacity(cfg)); }
  }

  lemma {:induction false} RunKeepsCacheValid(cfg: Config, cache: ProofCache, calls: seq<Call>)
    requires CacheValid(cfg, cache)
    ensures CacheValid(cfg, RunCache(cfg, cache, calls))
  {
    if calls == [] {
    } else {
      var pre, c := calls[..|calls| - 1], calls[|calls| - 1];
      RunKeepsCacheValid(cfg, cache, pre);
      ProcessKeepsCacheValid(cfg, RunCache(cfg, cache, pre), c.id, c.rpc);
    }
  }

  /** Exactly a successful call leaves its proof cached as most recently used; a failed one changes nothing. */
  lemma CachedIffOk(cfg: Config, cache: ProofCache, id: Key, rpc: Rpc)
    ensures var o := Process(cfg, cache, id, rpc);
            && (o.result.Ok? ==> Protected(o.cache, id, o.result.value, {}))
            && (o.result.Err? ==> o.cache == cache && Find(o.cache, id).None?)
  {
  }

  lemma CallKeepsProtected(cfg: Config, cache: ProofCache, id: Key, proof: RelayProof, recent: set<Key>, c: Call)
    requires CacheValid(cfg, cache) && Protected(cache, id, proof, recent)
    requires c.id != id && Process(cfg, cache, c.id, c.rpc).result.Ok? ==> |recent + {c.id}| < CacheCapacity(cfg)
    ensures var o := Process(cfg, cache, c.id, c.rpc);
            Protected(o.cache, id, proof,
                      if c.id == id then {} else if o.result.Ok? then recent + {c.id} else recent)
  {
    var o := Process(cfg, cache, c.id, c.rpc);
    if c.id == id {
      ProtectedFound(cache, id, proof, recent);
    } else if o.result.Ok? {
      OtherUseKeepsProtected(cache, id, proof, recent, c.id, o.result.value, CacheCapacity(cfg));
    }
  }

  lemma {:induction false} StaysProtected(cfg: Config, cache: ProofCache, calls: seq<Call>, id: Key, proof: RelayProof)
    requires CacheValid(cfg, cache) && Protected(cache, id, proof, {})
    requires forall j :: 0 <= j <= |calls| ==> |OthersSince(cfg, cache, calls[..j], id)| < CacheCapacity(cfg)
    ensures Protected(RunCache(cfg, cache, calls), id, proof, OthersSince(cfg, cache, calls, id))
  {
    if calls == [] {
    } else {
      var pre, c := calls[..|calls| - 1], calls[|calls| - 1];
      forall j | 0 <= j <= |pre| ensures |OthersSince(cfg, cache, pre[..j], id)| < CacheCapacity(cfg) {
        assert pre[..j] == calls[..j];
      }
      StaysProtected(cfg, cache, pre, id, proof);
      RunKeepsCacheValid(cfg, cache, pre);
      assert calls[..|calls|] == calls;
      CallKeepsProtected(cfg, RunCache(cfg, cache, pre), id, proof, OthersSince(cfg, cache, pre, id), c);
    }
  }

  /** Once a call for `id` has returned a proof, every later call for `id` returns the same proof with no
      submission, reward or counter change, as long as fewer than `capacity` other ids were cached or hit
      since the latest call for `id` — whatever the RPC node answers. */
  lemma ProofIsStable(cfg: Config, cache0: ProofCache, id: Key, rpc0: Rpc, calls: seq<Call>, rpc: Rpc)
    requires CacheValid(cfg, cache0) && Process(cfg, cache0, id, rpc0).result.Ok?
    requires var cache := Process(cfg, cache0, id, rpc0).cache;
             forall j :: 0 <= j <= |calls| ==>
               |OthersSince(cfg, cache, calls[..j], id)| < if cfg.capacity == 0 then 1000 else cfg.capacity
    ensures var first := Process(cfg, cache0, id, rpc0);
            var again := Process(cfg, RunCache(cfg, first.cache, calls), id, rpc);
            again.result == first.result && again.effects == NO_EFFECTS
  {
    var first := Process(cfg, cache0, id, rpc0);
    ProcessKeepsCacheValid(cfg, cache0, id, rpc0);
    CachedIffOk(cfg, cache0, id, rpc0);
    StaysProtected(cfg, first.cache, calls, id, first.result.value);
    ProtectedFound(RunCache(cfg, first.cache, calls), id, first.result.value, OthersSince(cfg, first.cache, calls, id));
  }

  // ---- When a call submits ------------------------------------------------------------------------

  /** Some call of the run returned a proof for `id`. */
  ghost predicate HasProof(cfg: Config, cache: ProofCache, calls: seq<Call>, id: Key)
  {
    calls != [] &&
    (var pre, c := calls[..|calls| - 1], calls[|calls| - 1];
     || HasProof(cfg, cache, pre, id)
     || (c.id == id && Process(cfg, RunCache(cfg, cache, pre), id, c.rpc).result.Ok?))
  }

  /** Once proven, `id` is cached behind exactly `recent` or evicted; before, it is not cached. */
  ghost predicate PlacedOnceProven(cfg: Config, cache: ProofCache, id: Key, proven: bool, recent: set<Key>)
  {
    && CacheValid(cfg, cache)
    && if proven then Placed(cache, id, recent, CacheCapacity(cfg)) else Find(cache, id).None?
  }

  /** A successful call is a `put` of its proof, a failed one leaves the cache alone. */
  lemma ProcessIsPut(cfg: Config, cache: ProofCache, id: Key, rpc: Rpc)
    requires CacheValid(cfg, cache)
    ensures var o := Process(cfg, cache, id, rpc);
            && (o.result.Ok? ==> o.cache == Put(cache, id, o.result.value, CacheCapacity(cfg)))
            && (o.result.Err? ==> o.cache == cache && Find(cache, id).None?)
  {
    if Find(cache, id).Some? { TouchIsPut(cache, id, CacheCapacity(cfg)); }
    hide Attempts, LedgerProof, Put, Find, Touch;
  }

  lemma CallKeepsPlaced(cfg: Config, cache: ProofCache, id: Key, proven: bool, recent: set<Key>, c: Call)
    requires PlacedOnceProven(cfg, cache, id, proven, recent)
    ensures var o := Process(cfg, cache, c.id, c.rpc);
            PlacedOnceProven(cfg, o.cache, id, proven || (c.id == id && o.result.Ok?),
                             if o.result.Err? then recent else if c.id == id then {} else recent + {c.id})
  {
    var o, n := Process(cfg, cache, c.id, c.rpc), CacheCapacity(cfg);
    ProcessIsPut(cfg, cache, c.id, c.rpc);
    ProcessKeepsCacheValid(cfg, cache, c.id, c.rpc);
    hide Process, Placed, Put, Find, CacheCapacity;
    if o.result.Ok? {
      if c.id == id {
        PutPlacesFirst(cache, id, o.result.value, n);
      } else if proven {
        PutKeepsPlaced(cache, id, recent, c.id, o.result.value, n);
      } else {
        PutKeepsAbsent(cache, id, c.id, o.result.value, n);
      }
    }
  }

  lemma {:induction false} RunKeepsPlaced(cfg: Config, cache: ProofCache, calls: seq<Call>, id: Key, proven: bool)
    requires PlacedOnceProven(cfg, cache, id, proven, {})
    ensures PlacedOnceProven(cfg, RunCache(cfg, cache, calls), id, proven || HasProof(cfg, cache, calls, id),
                             OthersSince(cfg, cache, calls, id))
  {
    if calls == [] {
    } else {
      var pre, c := calls[..|calls| - 1], calls[|calls| - 1];
      RunKeepsPlaced(cfg, cache, pre, id, proven);
      hide PlacedOnceProven, Process;
      CallKeepsPlaced(cfg, RunCache(cfg, cache, pre), id, proven || HasProof(cfg, cache, pre, id),
                      OthersSince(cfg, cache, pre, id), c);
    }
  }

  /** A call submits exactly on a miss. */
  lemma SubmitsOnMiss(cfg: Config, cache: ProofCache, id: Key, rpc: Rpc)
    ensures Process(cfg, cache, id, rpc).effects.submissions > 0 <==> Find(cache, id).None?
  {
    hide Attempts, LedgerProof, Put, Find, Touch;
  }

  /** Exactly when a call submits, in every run of a new node and whatever the network answers: no earlier call
      returned a proof for the id, or since the latest that did, at least `capacity` other ids were cached or hit. */
  lemma SubmitsIff(cfg: Config, calls: seq<Call>, id: Key, rpc: Rpc)
    ensures Process(cfg, RunCache(cfg, [], calls), id, rpc).effects.submissions > 0
            <==> !HasProof(cfg, [], calls, id)
                 || |OthersSince(cfg, [], calls, id)| >= if cfg.capacity == 0 then 1000 else cfg.capacity
  {
    RunKeepsPlaced(cfg, [], calls, id, false);
    var cache := RunCache(cfg, [], calls);
    SubmitsOnMiss(cfg, cache, id, rpc);
    hide RunCache, Process, HasProof, OthersSince;
    if HasProof(cfg, [], calls, id) { PlacedFound(cache, id, OthersSince(cfg, [], calls, id), CacheCapacity(cfg)); }
  }

  /** The same from any cache, after a call that returned a proof: the id is submitted again if and only if at least
      `capacity` other ids were cached or hit since it last was proven. */
  lemma ProvenIsResubmittedIff(cfg: Config, cache0: ProofCache, id: Key, rpc0: Rpc, calls: seq<Call>, rpc: Rpc)
    requires CacheValid(cfg, cache0) && Process(cfg, cache0, id, rpc0).result.Ok?
    ensures var first := Process(cfg, cache0, id, rpc0);
            Process(cfg, RunCache(cfg, first.cache, calls), id, rpc).effects.submissions > 0
            <==> |OthersSince(cfg, first.cache, calls, id)| >= if cfg.capacity == 0 then 1000 else cfg.capacity
  {
    var first := Process(cfg, cache0, id, rpc0);
    ProcessIsPut(cfg, cache0, id, rpc0);
    ProcessKeepsCacheValid(cfg, cache0, id, rpc0);
    PutPlacesFirst(cache0, id, first.result.value, CacheCapacity(cfg));
    var cache := RunCache(cfg, first.cache, calls);
    SubmitsOnMiss(cfg, cache, id, rpc);
    hide RunCache, Process, HasProof, OthersSince, Placed, Put;
    RunKeepsPlaced(cfg, first.cache, calls, id, true);
    PlacedFound(cache, id, OthersSince(cfg, first.cache, calls, id), CacheCapacity(cfg));
  }

  /** The immediate repeat of a call submits again if and only if the call returned an error. */
  lemma RepeatSubmitsIffFailed(cfg: Config, cache: ProofCache, id: Key, rpc: Rpc, rpc': Rpc)
    ensures var first := Process(cfg, cache, id, rpc);
            Process(cfg, first.cache, id, rpc').effects.submissions > 0 <==> first.result.Err?
  {
    CachedIffOk(cfg, cache, id, rpc);
    var first := Process(cfg, cache, id, rpc);
    if first.result.Ok? { ProtectedFound(first.cache, id, first.result.value, {}); }
  }

  /** The ledger gives no proof for an accepted transaction hash: the hash or the ledger's own is not 32
      hexadecimal bytes, or one of the two lookups fails. */
  predicate NoLedgerProof(txHash: string, rpc: Rpc)
  {
    || DecodeHash32(txHash).None?
    || rpc.ledgerSequence.Err?
    || rpc.ledgerHash.Err?
    || DecodeHash32(rpc.ledgerHash.value).None?
  }

  lemma CountsAccepted(cfg: Config, cache: ProofCache, id: Key, rpc: Rpc)
    ensures var o := Process(cfg, cache, id, rpc);
            var last := rpc.submit(Attempts(rpc.submit, cfg.maxAttempts) - 1);
            && (o.effects.submitted == 1 <==> Find(cache, id).None? && last.Ok?)
            && (o.effects.submitted == 1 ==> (o.result.Err? <==> NoLedgerProof(last.value, rpc)))
  {
    hide Attempts, Find, Touch, Put, DecodeHash32;
  }

  /** What one call counts: nothing on a hit; otherwise every submission but the first is a retry, an answer that
      accepts counts as submitted and one that rejects as rejected, and exactly a new proof is rewarded. */
  lemma CallCounts(cfg: Config, cache: ProofCache, id: Key, rpc: Rpc)
    ensures var o := Process(cfg, cache, id, rpc);
            var last := rpc.submit(Attempts(rpc.submit, cfg.maxAttempts) - 1);
            && (Find(cache, id).Some? ==> o.effects == Effects(0, 0, 0, 0, false))
            && (Find(cache, id).None? ==>
                  && o.effects.submissions == Attempts(rpc.submit, cfg.maxAttempts)
                  && o.effects.retries == o.effects.submissions - 1
                  && (o.effects.submitted == if last.Ok? then 1 else 0)
                  && (o.effects.rejected == if last.Err? && last.error.TransactionRejected? then 1 else 0)
                  && (o.effects.rewarded <==> o.result.Ok?)
                  && (last.Err? ==> o.result == Err(last.error)))
  {
    hide Attempts, Find, Touch, Put, LedgerProof;
  }

  /** Which error a call reports after an accepted submission: that of the first step that fails. */
  lemma FirstFailureReported(cfg: Config, cache: ProofCache, id: Key, rpc: Rpc)
    requires Find(cache, id).None? && rpc.submit(Attempts(rpc.submit, cfg.maxAttempts) - 1).Ok?
    ensures var o := Process(cfg, cache, id, rpc);
            var hash := rpc.submit(Attempts(rpc.submit, cfg.maxAttempts) - 1).value;
            if DecodeHash32(hash).None? then o.result == Err(Network("invalid transaction hash"))
            else if rpc.ledgerSequence.Err? then o.result == Err(rpc.ledgerSequence.error)
            else if rpc.ledgerHash.Err? then o.result == Err(rpc.ledgerHash.error)
            else DecodeHash32(rpc.ledgerHash.value).None? ==> o.result == Err(Network("invalid ledger hash"))
  {
    hide Attempts, Find, Touch, Put, DecodeHash32;
  }

  /** The case that is no eviction: what the network accepted is submitted again even by an immediate repeat, if and
      only if the id was not cached, the last attempt was accepted, and the ledger gave no proof for it. */
  lemma AcceptedIsRepeatedIff(cfg: Config, cache: ProofCache, id: Key, rpc: Rpc, rpc': Rpc)
    ensures var first := Process(cfg, cache, id, rpc);
            var again := Process(cfg, first.cache, id, rpc');
            var last := rpc.submit(Attempts(rpc.submit, cfg.maxAttempts) - 1);
            first.effects.submitted == 1 && again.effects.submissions > 0
            <==> Find(cache, id).None? && last.Ok? && NoLedgerProof(last.value, rpc)
  {
    RepeatSubmitsIffFailed(cfg, cache, id, rpc, rpc');
    CountsAccepted(cfg, cache, id, rpc);
  }

  /** A failing family: the network accepts a genuine 32-byte transaction id, then the ledger lookup fails with
      any error; the call and its repeat are both accepted. */
  lemma AcceptedTwice(cfg: Config, cache: ProofCache, id: Key, txId: Bytes, e: RpcError, ledgerHash: Result<string>)
    requires Find(cache, id).None? && |txId| == 32
    ensures var rpc := Rpc(k => Ok(HexEncode(txId)), Err(e), ledgerHash);
            var first := Process(cfg, cache, id, rpc);
            var again := Process(cfg, first.cache, id, rpc);
            && DecodeHash32(HexEncode(txId)) == Some(txId)
            && first.result == again.result == Err(e)
            && first.effects == again.effects == Effects(1, 0, 1, 0, false)
  {
    HashRoundTrip(txId);
    var rpc := Rpc(k => Ok(HexEncode(txId)), Err(e), ledgerHash);
    assert LedgerProof(HexEncode(txId), rpc) == Err(e);
    assert Attempts(rpc.submit, cfg.maxAttempts) == 1;
  }
}
