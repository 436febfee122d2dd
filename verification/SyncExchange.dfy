/** What one anti-entropy exchange achieves (src/gossip/protocol.rs): the ids a node holds afterwards. */
module SyncExchange {
  import opened Core
  import opened Messages
  import opened StableSort
  import opened PriorityQueue
  import opened GossipState

  ghost function IdsOf(es: seq<Envelope>): set<Key>
  {
    set e | e in es :: e.messageId
  }

  /** The ids of the transactions held in the queue. */
  ghost function Ids(g: Gossip): set<Key>
  {
    IdsOf(Envelopes(g.tiers))
  }

  /** Some id of `ids` has the same first four bytes. */
  ghost predicate Collides(ids: set<Key>, id: Key)
  {
    exists x :: x in ids && Prefix4(x) == Prefix4(id)
  }

  ghost predicate NoCollisions(ids: set<Key>)
  {
    forall x, y :: x in ids && y in ids && Prefix4(x) == Prefix4(y) ==> x == y
  }

  ghost function ReplyTo(a: Gossip, b: Gossip): seq<Envelope>
  {
    SyncReply(b, KnownPrefixes(a))
  }

  ghost predicate IsSmall(reply: seq<Envelope>)
  {
    |reply| <= MACRO_MERGE_THRESHOLD
  }

  /** The requester after merging the reply and pacing in, by `schedule`, what waits then: what waited before if the
      reply is small, the reply itself if it is large. */
  ghost function Exchanged(a: Gossip, b: Gossip, schedule: seq<nat>): Gossip
  {
    RunPaced(MergeReply(a, ReplyTo(a, b)), schedule)
  }

  /** The order in which a reply enters the tier. */
  ghost function MergeOrder(reply: seq<Envelope>): (r: seq<Envelope>)
    ensures |r| == |reply|
  {
    if IsSmall(reply) then reply else Sort(reply, TimestampKey())
  }

  /** What waited before the exchange and is moved by the schedule. */
  ghost function PacedOld(a: Gossip, b: Gossip, schedule: seq<nat>): seq<Envelope>
  {
    if IsSmall(ReplyTo(a, b)) then a.backlog[..Min(Sum(schedule), |a.backlog|)] else []
  }

  /** The part of the reply that enters the tier: all of a small one, and of a large one what the schedule moves. */
  ghost function Merged(a: Gossip, b: Gossip, schedule: seq<nat>): seq<Envelope>
  {
    var reply := ReplyTo(a, b);
    if IsSmall(reply) then reply else MergeOrder(reply)[..Min(Sum(schedule), |reply|)]
  }

  ghost function Entered(a: Gossip, b: Gossip, schedule: seq<nat>): seq<Envelope>
  {
    Merged(a, b, schedule) + PacedOld(a, b, schedule)
  }

  /** What waits after the exchange; a large reply has replaced what waited before. */
  ghost function StillWaiting(a: Gossip, b: Gossip, schedule: seq<nat>): seq<Envelope>
  {
    var reply := ReplyTo(a, b);
    if IsSmall(reply) then a.backlog[Min(Sum(schedule), |a.backlog|)..]
    else MergeOrder(reply)[Min(Sum(schedule), |reply|)..]
  }

  /** What enters the tier fits it. */
  ghost predicate HasRoom(a: Gossip, b: Gossip, schedule: seq<nat>)
  {
    |a.tiers.normal| + |Entered(a, b, schedule)| <= NORMAL_CAPACITY
  }

  /** The whole reply enters: it is small, or the schedule moves it completely. */
  ghost predicate ReplyMerged(a: Gossip, b: Gossip, schedule: seq<nat>)
  {
    IsSmall(ReplyTo(a, b)) || Sum(schedule) >= |ReplyTo(a, b)|
  }

  /** The responder's ids that share no prefix with one of the requester's. */
  ghost function Gained(a: Gossip, b: Gossip): set<Key>
  {
    set id | id in Ids(b) && !Collides(Ids(a), id)
  }

  // ---- Lists as sets ------------------------------------------------------------------------------

  lemma {:induction false} PrefixesMeaning(es: seq<Envelope>, p: U32)
    ensures p in PrefixesOf(es) <==> exists x :: x in IdsOf(es) && Prefix4(x) == p
  {
    if es == [] {
    } else {
      PrefixesMeaning(es[1..], p);
      IdsSplit([es[0]], es[1..]);
      assert es == [es[0]] + es[1..] && IdsOf([es[0]]) == {es[0].messageId};
    }
  }

  lemma {:induction false} UnknownMeaning(es: seq<Envelope>, known: seq<U32>, e: Envelope)
    ensures e in Unknown(es, known) <==> e in es && Prefix4(e.messageId) !in known
  {
    if es == [] {
    } else {
      UnknownMeaning(es[1..], known, e);
      assert es == [es[0]] + es[1..];
    }
  }

  lemma IdsSplit(a: seq<Envelope>, b: seq<Envelope>)
    ensures IdsOf(a + b) == IdsOf(a) + IdsOf(b)
  {
    forall id | id in IdsOf(a) + IdsOf(b) ensures id in IdsOf(a + b) {
      if id in IdsOf(a) {
        var e :| e in a && e.messageId == id;
        assert e in a + b;
      } else {
        var e :| e in b && e.messageId == id;
        assert e in a + b;
      }
    }
  }

  lemma {:induction false} EnvelopesOfTxs(es: seq<Envelope>)
    ensures EnvelopesOf(Txs(es)) == es
  {
    if es == [] {
    } else {
      EnvelopesOfTxs(es[1..]);
      assert Txs(es)[1..] == Txs(es[1..]);
      assert es == [es[0]] + es[1..];
    }
  }

  lemma IdsOfTiers(t: Tiers)
    ensures IdsOf(Envelopes(t))
         == IdsOf(EnvelopesOf(t.high)) + IdsOf(EnvelopesOf(t.normal)) + IdsOf(EnvelopesOf(t.low))
  {
    EnvelopesSplit(t.high + t.normal, t.low);
    EnvelopesSplit(t.high, t.normal);
    IdsSplit(EnvelopesOf(t.high) + EnvelopesOf(t.normal), EnvelopesOf(t.low));
    IdsSplit(EnvelopesOf(t.high), EnvelopesOf(t.normal));
  }

  lemma AppendedIds(t: Tiers, es: seq<Envelope>)
    ensures IdsOf(Envelopes(t.(normal := t.normal + Txs(es)))) == IdsOf(Envelopes(t)) + IdsOf(es)
  {
    IdsOfTiers(t);
    IdsOfTiers(t.(normal := t.normal + Txs(es)));
    EnvelopesSplit(t.normal, Txs(es));
    EnvelopesOfTxs(es);
    IdsSplit(EnvelopesOf(t.normal), es);
  }

  lemma NonEmptyIds(es: seq<Envelope>)
    ensures es != [] ==> IdsOf(es) != {}
  {
    if es != [] { assert es[0].messageId in IdsOf(es); }
  }

  lemma PermutedIds(a: seq<Envelope>, b: seq<Envelope>)
    requires multiset(a) == multiset(b)
    ensures IdsOf(a) == IdsOf(b)
  {
    assert forall e :: e in a <==> e in multiset(a);
    assert forall e :: e in b <==> e in multiset(b);
  }

  // ---- The exchange -------------------------------------------------------------------------------

  lemma ReplyIds(a: Gossip, b: Gossip)
    ensures IdsOf(ReplyTo(a, b)) == Gained(a, b)
  {
    forall e ensures e in ReplyTo(a, b) <==> e in Envelopes(b.tiers) && !Collides(Ids(a), e.messageId) {
      UnknownMeaning(Envelopes(b.tiers), KnownPrefixes(a), e);
      PrefixesMeaning(Envelopes(a.tiers), Prefix4(e.messageId));
    }
  }

  lemma LastNAppend<T>(s: seq<T>, t: seq<T>, n: nat)
    requires |t| <= n
    ensures LastN(s + t, n) == LastN(s, n - |t|) + t
  {
  }

  /** The state after an exchange, for every requester, waiting envelopes or not, every responder and every
      schedule: the tier is the newest 10 000 of the old tier followed by what entered, and the rest waits. */
  lemma ExchangeState(a: Gossip, b: Gossip, schedule: seq<nat>)
    requires |a.tiers.normal| <= NORMAL_CAPACITY
    ensures Exchanged(a, b, schedule)
         == Gossip(a.tiers.(normal := LastN(a.tiers.normal + Txs(Entered(a, b, schedule)), NORMAL_CAPACITY)),
                   StillWaiting(a, b, schedule))
  {
    hide RunPaced, MergeReply, ReplyTo, Sum, Txs, Sort, LastN;
    if IsSmall(ReplyTo(a, b)) {
      SmallReplyState(a, ReplyTo(a, b), schedule);
    } else {
      LargeReplyState(a, ReplyTo(a, b), schedule);
      assert Merged(a, b, schedule) + [] == Merged(a, b, schedule);
    }
  }

  lemma SmallReplyState(a: Gossip, reply: seq<Envelope>, schedule: seq<nat>)
    requires |a.tiers.normal| <= NORMAL_CAPACITY && IsSmall(reply)
    ensures var k := Min(Sum(schedule), |a.backlog|);
            var normal := LastN(a.tiers.normal + Txs(reply + a.backlog[..k]), NORMAL_CAPACITY);
            RunPaced(MergeReply(a, reply), schedule) == Gossip(a.tiers.(normal := normal), a.backlog[k..])
  {
    var g := MergeReply(a, reply);
    AddAllKeepsNewest(a, reply);
    assert g == a.(tiers := a.tiers.(normal := LastN(a.tiers.normal + Txs(reply), NORMAL_CAPACITY)));
    hide MergeReply;
    PacedSchedule(g, schedule);
    hide RunPaced, Sum, Txs, LastN;
    MergedThenPaced(a.tiers.normal, reply, a.backlog[..Min(Sum(schedule), |a.backlog|)]);
  }

  lemma LargeReplyState(a: Gossip, reply: seq<Envelope>, schedule: seq<nat>)
    requires |a.tiers.normal| <= NORMAL_CAPACITY && !IsSmall(reply)
    ensures var sorted, k := MergeOrder(reply), Min(Sum(schedule), |reply|);
            var normal := LastN(a.tiers.normal + Txs(sorted[..k]), NORMAL_CAPACITY);
            RunPaced(MergeReply(a, reply), schedule) == Gossip(a.tiers.(normal := normal), sorted[k..])
  {
    var g := a.(backlog := MergeOrder(reply));
    assert MergeReply(a, reply) == g;
    hide MergeReply, MergeOrder;
    PacedSchedule(g, schedule);
    hide RunPaced, Sum, Txs, LastN;
  }

  lemma MergedThenPaced(normal: seq<ProtocolMessage>, first: seq<Envelope>, second: seq<Envelope>)
    ensures LastN(LastN(normal + Txs(first), NORMAL_CAPACITY) + Txs(second), NORMAL_CAPACITY)
         == LastN(normal + Txs(first + second), NORMAL_CAPACITY)
  {
    LastNCompose(normal + Txs(first), Txs(second), NORMAL_CAPACITY);
    assert Txs(first + second) == Txs(first) + Txs(second);
    assert normal + (Txs(first) + Txs(second)) == (normal + Txs(first)) + Txs(second);
  }

  lemma MergeOrderIds(reply: seq<Envelope>)
    ensures IdsOf(MergeOrder(reply)) == IdsOf(reply)
  {
    SortCorrect(reply, TimestampKey());
    hide Sort, WithKey;
    PermutedIds(MergeOrder(reply), reply);
  }

  lemma SplitIds(es: seq<Envelope>, k: nat)
    requires k <= |es|
    ensures IdsOf(es[..k]) + IdsOf(es[k..]) == IdsOf(es)
  {
    IdsSplit(es[..k], es[k..]);
    assert es == es[..k] + es[k..];
  }

  /** Where the ids of the reply, and of what waited, are after the exchange. */
  lemma EnteredOrWaiting(a: Gossip, b: Gossip, schedule: seq<nat>)
    ensures IdsOf(Entered(a, b, schedule)) == IdsOf(Merged(a, b, schedule)) + IdsOf(PacedOld(a, b, schedule))
    ensures ReplyMerged(a, b, schedule) ==> IdsOf(Merged(a, b, schedule)) == Gained(a, b)
    ensures IdsOf(Merged(a, b, schedule)) <= Gained(a, b)
    ensures IdsOf(Entered(a, b, schedule)) + IdsOf(StillWaiting(a, b, schedule))
         == Gained(a, b) + if IsSmall(ReplyTo(a, b)) then IdsOf(a.backlog) else {}
  {
    var reply := ReplyTo(a, b);
    ReplyIds(a, b);
    IdsSplit(Merged(a, b, schedule), PacedOld(a, b, schedule));
    if IsSmall(reply) {
      hide IdsOf, Gained, Sum;
      SplitIds(a.backlog, Min(Sum(schedule), |a.backlog|));
    } else {
      MergeOrderIds(reply);
      assert IdsOf([]) == {};
      hide IdsOf, Gained, Sum, MergeOrder;
      SplitIds(MergeOrder(reply), Min(Sum(schedule), |reply|));
      assert ReplyMerged(a, b, schedule) ==> Merged(a, b, schedule) == MergeOrder(reply);
    }
  }

  lemma ExchangedIds(a: Gossip, b: Gossip, schedule: seq<nat>)
    requires HasRoom(a, b, schedule)
    ensures Ids(Exchanged(a, b, schedule)) == Ids(a) + IdsOf(Entered(a, b, schedule))
    ensures Exchanged(a, b, schedule).backlog == StillWaiting(a, b, schedule)
  {
    ExchangeState(a, b, schedule);
    AppendedIds(a.tiers, Entered(a, b, schedule));
    hide Exchanged, Entered, StillWaiting, IdsOf, Envelopes;
  }

  /** With room in the tier, the ids held or waiting after an exchange are those held before, the responder's that
      share no prefix with one of these, and after a small reply what waited before. When the whole reply has entered,
      the requester holds exactly the former two and what was paced in, and what it lacks of the responder's ids are
      exactly those that collide with one it held and came in no other way. */
  lemma ExchangeGains(a: Gossip, b: Gossip, schedule: seq<nat>)
    requires HasRoom(a, b, schedule)
    ensures var a', older := Exchanged(a, b, schedule), IdsOf(PacedOld(a, b, schedule));
            && Ids(a') + IdsOf(a'.backlog)
               == Ids(a) + Gained(a, b) + (if IsSmall(ReplyTo(a, b)) then IdsOf(a.backlog) else {})
            && (ReplyMerged(a, b, schedule) ==>
                  && Ids(a') == Ids(a) + Gained(a, b) + older
                  && Ids(b) - Ids(a')
                     == set id | id in Ids(b) && id !in Ids(a) && Collides(Ids(a), id) && id !in older)
  {
    ExchangedIds(a, b, schedule);
    EnteredOrWaiting(a, b, schedule);
    hide Exchanged, Entered, Merged, StillWaiting, PacedOld, Ids, IdsOf, Collides;
  }

  /** Without prefix collisions the requester ends with the union (and what was paced in of what waited). */
  lemma ExchangeGivesUnion(a: Gossip, b: Gossip, schedule: seq<nat>)
    requires HasRoom(a, b, schedule) && ReplyMerged(a, b, schedule)
    requires NoCollisions(Ids(a) + Ids(b))
    ensures Ids(Exchanged(a, b, schedule)) == Ids(a) + Ids(b) + IdsOf(PacedOld(a, b, schedule))
  {
    ExchangeGains(a, b, schedule);
    hide Exchanged, HasRoom, ReplyMerged, PacedOld, IdsOf, Ids;
    forall id | id in Ids(b) && id !in Ids(a) ensures !Collides(Ids(a), id) {}
  }

  /** Both exchanges have room and take in their whole reply. */
  ghost predicate BothMerged(a: Gossip, b: Gossip, schedule: seq<nat>, schedule': seq<nat>)
  {
    && HasRoom(a, b, schedule) && ReplyMerged(a, b, schedule)
    && HasRoom(b, Exchanged(a, b, schedule), schedule') && ReplyMerged(b, Exchanged(a, b, schedule), schedule')
  }

  /** Without collisions an exchange in each direction makes both nodes hold the union; the second one holds besides
      only what it has paced in of what waited there. */
  lemma SymmetricExchangeConverges(a: Gossip, b: Gossip, schedule: seq<nat>, schedule': seq<nat>)
    requires BothMerged(a, b, schedule, schedule')
    requires NoCollisions(Ids(a) + Ids(b) + IdsOf(PacedOld(a, b, schedule)))
    ensures var a' := Exchanged(a, b, schedule);
            && Ids(a') == Ids(a) + Ids(b) + IdsOf(PacedOld(a, b, schedule))
            && Ids(Exchanged(b, a', schedule')) == Ids(a') + IdsOf(PacedOld(b, a', schedule'))
  {
    var a' := Exchanged(a, b, schedule);
    ExchangeGivesUnion(a, b, schedule);
    assert Ids(b) + Ids(a') == Ids(a');
    ExchangeGivesUnion(b, a', schedule');
  }

  /** Some id that only one side holds has the first four bytes of an id of the other side. */
  ghost predicate OneSidedCollision(ids: set<Key>, ids': set<Key>)
  {
    || (exists id :: id in ids && id !in ids' && Collides(ids', id))
    || (exists id :: id in ids' && id !in ids && Collides(ids, id))
  }

  /** The same when the two sides also pace in `older` and `older'` of what waited: nothing that only one side has
      collides with an id the other held, and the first side has what the second paced in. */
  ghost predicate SidesAgree(a: set<Key>, b: set<Key>, older: set<Key>, older': set<Key>)
  {
    && (forall id :: id in b && id !in a + older ==> !Collides(a, id))
    && (forall id :: id in a + older && id !in b + older' ==> !Collides(b, id))
    && (forall id :: id in older' ==> id in a + older || (id in b && !Collides(a, id)))
  }

  /** The exact condition for both sides to hold the same ids after an exchange in each direction. With nothing
      paced in of what waited before, it is that no id held by one side only collides with an id of the other. */
  lemma SymmetricExchangeConvergesIff(a: Gossip, b: Gossip, schedule: seq<nat>, schedule': seq<nat>)
    requires BothMerged(a, b, schedule, schedule')
    ensures var a' := Exchanged(a, b, schedule);
            var older, older' := PacedOld(a, b, schedule), PacedOld(b, a', schedule');
            && (Ids(Exchanged(b, a', schedule')) == Ids(a')
                <==> SidesAgree(Ids(a), Ids(b), IdsOf(older), IdsOf(older')))
            && (older == [] && older' == [] ==>
                  (Ids(Exchanged(b, a', schedule')) == Ids(a') <==> !OneSidedCollision(Ids(a), Ids(b))))
  {
    var a' := Exchanged(a, b, schedule);
    var older, older' := PacedOld(a, b, schedule), PacedOld(b, a', schedule');
    ExchangeGains(a, b, schedule);
    ExchangeGains(b, a', schedule');
    assert IdsOf([]) == {};
    hide Exchanged, Ids, IdsOf, HasRoom, ReplyMerged, PacedOld, SidesAgree;
    EqualIff(Ids(a), Ids(b), IdsOf(older), IdsOf(older'), Ids(a'), Ids(Exchanged(b, a', schedule')));
    AgreeIff(Ids(a), Ids(b));
  }

  lemma EqualIff(a: set<Key>, b: set<Key>, older: set<Key>, older': set<Key>, a': set<Key>, b': set<Key>)
    requires a' == a + (set id | id in b && !Collides(a, id)) + older
    requires b' == b + (set id | id in a' && !Collides(b, id)) + older'
    ensures b' == a' <==> SidesAgree(a, b, older, older')
  {
    hide Collides;
    if SidesAgree(a, b, older, older') {
      forall id ensures id in a' <==> id in b' {}
    }
  }

  lemma AgreeIff(a: set<Key>, b: set<Key>)
    ensures SidesAgree(a, b, {}, {}) <==> !OneSidedCollision(a, b)
  {
    hide Collides;
  }

  // ---- An exchange that overflows the tier --------------------------------------------------------

  lemma {:induction false} NoTransactions(s: seq<ProtocolMessage>)
    requires forall i :: 0 <= i < |s| ==> PriorityOf(s[i]) != Normal
    ensures EnvelopesOf(s) == []
  {
    if s == [] {
    } else {
      NoTransactions(s[1..]);
    }
  }

  lemma CountBound(s: seq<ProtocolMessage>, known: seq<U32>)
    ensures |Unknown(EnvelopesOf(s), known)| <= |EnvelopesOf(s)| <= |s|
  {
    var at := UnknownInOrder(EnvelopesOf(s), known);
    IncreasingBound(at, |EnvelopesOf(s)|);
    EnvelopesBound(s);
  }

  lemma {:induction false} EnvelopesBound(s: seq<ProtocolMessage>)
    ensures |EnvelopesOf(s)| <= |s|
  {
    if s == [] {
    } else {
      EnvelopesBound(s[1..]);
    }
  }

  lemma {:induction false} IncreasingBound(at: seq<nat>, n: nat)
    requires Increasing(at) && forall i :: 0 <= i < |at| ==> at[i] < n
    ensures |at| <= n
  {
    if at == [] {
    } else {
      IncreasingBound(at[..|at| - 1], at[|at| - 1]);
    }
  }

  lemma ReplyBound(a: Gossip, b: Gossip)
    requires TiersValid(b.tiers)
    ensures |ReplyTo(a, b)| <= NORMAL_CAPACITY
  {
    EnvelopesSplit(b.tiers.high + b.tiers.normal, b.tiers.low);
    EnvelopesSplit(b.tiers.high, b.tiers.normal);
    NoTransactions(b.tiers.high);
    NoTransactions(b.tiers.low);
    assert Envelopes(b.tiers) == EnvelopesOf(b.tiers.normal);
    CountBound(b.tiers.normal, KnownPrefixes(a));
  }

  lemma EnteredBound(a: Gossip, b: Gossip, schedule: seq<nat>)
    requires TiersValid(b.tiers)
    ensures PacedOld(a, b, schedule) == [] ==> |Entered(a, b, schedule)| <= NORMAL_CAPACITY
    ensures IsSmall(ReplyTo(a, b)) && PacedOld(a, b, schedule) == [] ==> StillWaiting(a, b, schedule) == a.backlog
  {
    ReplyBound(a, b);
    hide TiersValid, ReplyTo;
  }

  lemma OverflowState(a: Gossip, b: Gossip, schedule: seq<nat>)
    requires TiersValid(a.tiers) && TiersValid(b.tiers)
    requires PacedOld(a, b, schedule) == [] || |Entered(a, b, schedule)| <= NORMAL_CAPACITY
    ensures |Entered(a, b, schedule)| <= NORMAL_CAPACITY
    ensures var entered := Entered(a, b, schedule);
            var kept := LastN(a.tiers.normal, NORMAL_CAPACITY - |entered|);
            Exchanged(a, b, schedule)
            == Gossip(a.tiers.(normal := kept + Txs(entered)), StillWaiting(a, b, schedule))
    ensures IsSmall(ReplyTo(a, b)) && PacedOld(a, b, schedule) == [] ==>
              Exchanged(a, b, schedule).backlog == a.backlog
  {
    EnteredBound(a, b, schedule);
    ExchangeState(a, b, schedule);
    EnteredOrWaiting(a, b, schedule);
    hide Exchanged, Entered, Merged, PacedOld, StillWaiting, TiersValid;
    LastNAppend(a.tiers.normal, Txs(Entered(a, b, schedule)), NORMAL_CAPACITY);
  }

  lemma OverflowIds(a: Gossip, b: Gossip, schedule: seq<nat>)
    requires |Entered(a, b, schedule)| <= NORMAL_CAPACITY && ReplyMerged(a, b, schedule)
    ensures var entered := Entered(a, b, schedule);
            var kept := a.tiers.(normal := LastN(a.tiers.normal, NORMAL_CAPACITY - |entered|));
            IdsOf(Envelopes(kept.(normal := kept.normal + Txs(entered))))
            == IdsOf(Envelopes(kept)) + Gained(a, b) + IdsOf(PacedOld(a, b, schedule))
  {
    var entered := Entered(a, b, schedule);
    EnteredOrWaiting(a, b, schedule);
    hide Entered, Merged, PacedOld, Gained, IdsOf, Envelopes, LastN, Txs;
    AppendedIds(a.tiers.(normal := LastN(a.tiers.normal, NORMAL_CAPACITY - |entered|)), entered);
  }

  /** With or without room: every envelope that enters is in the tier afterwards, what an overflow pushes out is the
      front of the requester's own tier, and what waited and is not paced in still waits after a small reply. The
      bound on what enters holds whenever nothing is paced in of what waited. */
  lemma ExchangeUnderOverflow(a: Gossip, b: Gossip, schedule: seq<nat>)
    requires TiersValid(a.tiers) && TiersValid(b.tiers)
    requires PacedOld(a, b, schedule) == [] || |Entered(a, b, schedule)| <= NORMAL_CAPACITY
    ensures |Entered(a, b, schedule)| <= NORMAL_CAPACITY
    ensures var entered := Entered(a, b, schedule);
            var kept := a.tiers.(normal := LastN(a.tiers.normal, NORMAL_CAPACITY - |entered|));
            var a' := Exchanged(a, b, schedule);
            && a' == Gossip(kept.(normal := kept.normal + Txs(entered)), StillWaiting(a, b, schedule))
            && (ReplyMerged(a, b, schedule) ==>
                  Ids(a') == IdsOf(Envelopes(kept)) + Gained(a, b) + IdsOf(PacedOld(a, b, schedule)))
            && (IsSmall(ReplyTo(a, b)) && PacedOld(a, b, schedule) == [] ==> a'.backlog == a.backlog)
  {
    OverflowState(a, b, schedule);
    hide Exchanged, Merged, PacedOld, StillWaiting, TiersValid, Gained, IdsOf, Envelopes, LastN, Txs;
    if ReplyMerged(a, b, schedule) { OverflowIds(a, b, schedule); }
  }

  // ---- Repetition ---------------------------------------------------------------------------------

  /** The ids in the reply to an immediate repeat: exactly the responder's that still wait at the requester and
      share no prefix with an id it holds. */
  lemma RepeatedReplyIds(a: Gossip, b: Gossip, schedule: seq<nat>)
    requires HasRoom(a, b, schedule)
    ensures var a' := Exchanged(a, b, schedule);
            IdsOf(ReplyTo(a', b)) == set id | id in Ids(b) && id in IdsOf(a'.backlog) && !Collides(Ids(a'), id)
  {
    var a' := Exchanged(a, b, schedule);
    ReplyIds(a', b);
    ExchangeGains(a, b, schedule);
    hide Exchanged, Ids, IdsOf, HasRoom, ReplyMerged, PacedOld, ReplyTo, IsSmall;
    forall id | id in Ids(b) && !Collides(Ids(a'), id) ensures id in IdsOf(a'.backlog) {
      HeldOrWaiting(a, b, schedule, id);
    }
  }

  /** An id of the responder collides with one the requester holds, or waits. */
  lemma HeldOrWaiting(a: Gossip, b: Gossip, schedule: seq<nat>, id: Key)
    requires HasRoom(a, b, schedule) && id in Ids(b)
    ensures var a' := Exchanged(a, b, schedule); Collides(Ids(a'), id) || id in IdsOf(a'.backlog)
  {
    var a' := Exchanged(a, b, schedule);
    ExchangedIds(a, b, schedule);
    EnteredOrWaiting(a, b, schedule);
    hide Exchanged, Ids, IdsOf, HasRoom, Entered, Merged, StillWaiting, PacedOld;
    if Collides(Ids(a), id) {
      var x :| x in Ids(a) && Prefix4(x) == Prefix4(id);
      assert x in Ids(a');
    } else {
      assert id in Gained(a, b);
      assert id in IdsOf(Entered(a, b, schedule)) ==> id in Ids(a');
    }
  }

  /** Once the whole reply has entered, an immediate repeat gets an empty reply, collisions or not. */
  lemma RepeatedExchangeIsEmpty(a: Gossip, b: Gossip, schedule: seq<nat>)
    requires HasRoom(a, b, schedule) && ReplyMerged(a, b, schedule)
    ensures ReplyTo(Exchanged(a, b, schedule), b) == []
  {
    var a' := Exchanged(a, b, schedule);
    ReplyIds(a', b);
    ExchangeGains(a, b, schedule);
    NonEmptyIds(ReplyTo(a', b));
    hide Exchanged, Ids, IdsOf, HasRoom, ReplyMerged, PacedOld, ReplyTo;
    forall id | id in Ids(b) ensures Collides(Ids(a'), id) {
      if Collides(Ids(a), id) {
        var x :| x in Ids(a) && Prefix4(x) == Prefix4(id);
        assert x in Ids(a');
      } else {
        assert id in Ids(a');
      }
    }
  }

  /** Exactly when: the whole reply has entered, or all that waits of it collides with what has entered. */
  lemma RepeatedExchangeIsEmptyIff(a: Gossip, b: Gossip, schedule: seq<nat>)
    requires HasRoom(a, b, schedule)
    ensures ReplyTo(Exchanged(a, b, schedule), b) == []
        <==> ReplyMerged(a, b, schedule)
             || forall id :: id in IdsOf(StillWaiting(a, b, schedule)) ==> Collides(IdsOf(Merged(a, b, schedule)), id)
  {
    if ReplyMerged(a, b, schedule) {
      RepeatedExchangeIsEmpty(a, b, schedule);
    } else {
      var a' := Exchanged(a, b, schedule);
      RepeatedReplyIds(a, b, schedule);
      ExchangedIds(a, b, schedule);
      EnteredOrWaiting(a, b, schedule);
      NonEmptyIds(ReplyTo(a', b));
      assert IdsOf([]) == {};
      assert PacedOld(a, b, schedule) == [] && !IsSmall(ReplyTo(a, b));
      hide Exchanged, Ids, HasRoom, Entered, Merged, StillWaiting, PacedOld, IdsOf, ReplyTo, IsSmall;
      var merged, waiting := IdsOf(Merged(a, b, schedule)), IdsOf(StillWaiting(a, b, schedule));
      forall id | id in waiting ensures Collides(Ids(a'), id) <==> Collides(merged, id) {
        CollidesInUnion(Ids(a), merged, id);
      }
    }
  }

  lemma CollidesInUnion(a: set<Key>, b: set<Key>, id: Key)
    ensures Collides(a + b, id) <==> Collides(a, id) || Collides(b, id)
  {
    if Collides(a, id) {
      var x :| x in a && Prefix4(x) == Prefix4(id);
      assert x in a + b;
    } else if Collides(b, id) {
      var x :| x in b && Prefix4(x) == Prefix4(id);
      assert x in a + b;
    }
  }

  /** In particular, what waits is not listed in a request: a large reply that has not been paced in yet is sent
      again in full. */
  lemma UnpacedReplyIsSentAgain(a: Gossip, b: Gossip)
    requires !IsSmall(ReplyTo(a, b))
    ensures ReplyTo(Exchanged(a, b, []), b) == ReplyTo(a, b) != []
  {
  }
}
