/** The per-mode waiting queues in Redis, with a tally of what happened to every entry. */
module MatchQueue {
  import opened Options
  import opened MatchPlayer

  datatype Key = Key(mode: Mode, user: User)
  datatype Entry = Entry(level: int, enqueuedAt: int)

  /** `created`, `matched` and `removed` count, per key, the entries made by an enqueue on an
      absent field, taken by a successful pair, and deleted by a remove that found them. */
  datatype Queue = Queue(waiting: map<Key, Entry>, created: multiset<Key>, matched: multiset<Key>, removed: multiset<Key>)

  datatype Op =
    | Enqueue(player: Player)
    | Remove(mode: Mode, user: User)
    | Pair(a: Player, b: Player)

  const EmptyQueue := Queue(map[], multiset{}, multiset{}, multiset{})

  function KeyOf(p: Player): Key {
    Key(p.mode, p.userId)
  }

  function EnqueueStep(q: Queue, p: Player): Queue {
    q.(waiting := q.waiting[KeyOf(p) := Entry(p.level, p.enqueuedAt)],
       created := if KeyOf(p) in q.waiting then q.created else q.created + multiset{KeyOf(p)})
  }

  function RemoveStep(q: Queue, key: Key): Queue {
    if key in q.waiting then q.(waiting := q.waiting - {key}, removed := q.removed + multiset{key}) else q
  }

  predicate CanPair(q: Queue, a: Player, b: Player) {
    KeyOf(a) in q.waiting && KeyOf(b) in q.waiting
  }

  function PairStep(q: Queue, a: Player, b: Player): Queue {
    if CanPair(q, a, b)
    then q.(waiting := q.waiting - {KeyOf(a), KeyOf(b)}, matched := q.matched + multiset{KeyOf(a), KeyOf(b)})
    else q
  }

  function Step(q: Queue, op: Op): Queue {
    match op
    case Enqueue(p) => EnqueueStep(q, p)
    case Remove(mode, user) => RemoveStep(q, Key(mode, user))
    case Pair(a, b) => PairStep(q, a, b)
  }

  function Run(q: Queue, ops: seq<Op>): Queue {
    if ops == [] then q else Step(Run(q, ops[..|ops| - 1]), ops[|ops| - 1])
  }

  /** The matcher never pairs an entry with itself. */
  predicate PairsDiffer(ops: seq<Op>) {
    forall op :: op in ops && op.Pair? ==> KeyOf(op.a) != KeyOf(op.b)
  }

  predicate Conserved(q: Queue) {
    q.created == q.matched + q.removed + multiset(q.waiting.Keys)
  }

  /** An enqueue creates an entry exactly where there was none, a remove takes exactly the one it
      finds, and a pair takes two entries that are there and nothing otherwise. */
  lemma OpsEffect(q: Queue, p: Player, mode: Mode, user: User, a: Player, b: Player)
    ensures var key := Key(p.mode, p.userId);
            Step(q, Enqueue(p)) == q.(waiting := q.waiting[key := Entry(p.level, p.enqueuedAt)],
                                      created := q.created + if key in q.waiting then multiset{} else multiset{key})
    ensures var key := Key(mode, user);
            Step(q, Remove(mode, user)) == if key in q.waiting then q.(waiting := q.waiting - {key}, removed := q.removed + multiset{key}) else q
    ensures var x, y := Key(a.mode, a.userId), Key(b.mode, b.userId);
            Step(q, Pair(a, b)) == if x in q.waiting && y in q.waiting
                                   then q.(waiting := q.waiting - {x, y}, matched := q.matched + multiset{x, y}) else q
  {
    assert q.created + multiset{} == q.created;
  }

  /** A run takes every event, one after the other. */
  lemma RunTakesEachOp(q: Queue, ops: seq<Op>, op: Op)
    ensures Run(q, []) == q && Run(q, ops + [op]) == Step(Run(q, ops), op)
  {
    assert (ops + [op])[..|ops|] == ops;
  }

  // ---- Conservation ---------------------------------------------------------------------

  lemma RemovingKeys(m: map<Key, Entry>, keys: set<Key>)
    requires keys <= m.Keys
    ensures multiset(m.Keys) == multiset((m - keys).Keys) + multiset(keys)
  {
    assert m.Keys == (m - keys).Keys + keys;
    forall k ensures multiset(m.Keys)[k] == (multiset((m - keys).Keys) + multiset(keys))[k] {
    }
  }

  lemma EnqueueConserves(q: Queue, p: Player)
    requires Conserved(q)
    ensures Conserved(EnqueueStep(q, p))
  {
    var q' := EnqueueStep(q, p);
    assert q'.waiting.Keys == q.waiting.Keys + {KeyOf(p)};
    if KeyOf(p) !in q.waiting {
      assert multiset(q'.waiting.Keys) == multiset(q.waiting.Keys) + multiset{KeyOf(p)};
    } else {
      assert q'.waiting.Keys == q.waiting.Keys;
    }
  }

  lemma RemoveConserves(q: Queue, key: Key)
    requires Conserved(q)
    ensures Conserved(RemoveStep(q, key))
  {
    if key in q.waiting {
      RemovingKeys(q.waiting, {key});
      assert multiset({key}) == multiset{key};
    }
  }

  /** A pair attempt keeps the tally exactly when it fails or names two different entries. */
  lemma PairConserves(q: Queue, a: Player, b: Player)
    requires Conserved(q)
    ensures Conserved(PairStep(q, a, b)) <==> !CanPair(q, a, b) || KeyOf(a) != KeyOf(b)
  {
    if CanPair(q, a, b) {
      var keys := {KeyOf(a), KeyOf(b)};
      RemovingKeys(q.waiting, keys);
      if KeyOf(a) != KeyOf(b) {
        assert multiset(keys) == multiset{KeyOf(a), KeyOf(b)};
      } else {
        assert keys == {KeyOf(a)};
        assert multiset(keys)[KeyOf(a)] == 1 && multiset{KeyOf(a), KeyOf(b)}[KeyOf(a)] == 2;
      }
    }
  }

  lemma StepConserves(q: Queue, op: Op)
    requires Conserved(q) && (op.Pair? ==> KeyOf(op.a) != KeyOf(op.b))
    ensures Conserved(Step(q, op))
  {
    match op
    case Enqueue(p) => EnqueueConserves(q, p);
    case Remove(mode, user) => RemoveConserves(q, Key(mode, user));
    case Pair(a, b) => PairConserves(q, a, b);
  }

  lemma {:induction false} RunConserves(q: Queue, ops: seq<Op>)
    requires Conserved(q) && PairsDiffer(ops)
    ensures Conserved(Run(q, ops))
  {
    if ops != [] {
      RunConserves(q, ops[..|ops| - 1]);
      StepConserves(Run(q, ops[..|ops| - 1]), ops[|ops| - 1]);
    }
  }

  /** Over every interleaving, for every user and mode: entries created are the entries matched,
      the entries removed, and the one still waiting, if any. */
  lemma {:induction false} EntriesAreConserved(ops: seq<Op>, key: Key)
    requires forall op :: op in ops && op.Pair? ==> op.a.mode != op.b.mode || op.a.userId != op.b.userId
    ensures var q := Run(EmptyQueue, ops);
            q.created[key] == q.matched[key] + q.removed[key] + (if key in q.waiting then 1 else 0)
  {
    RunConserves(EmptyQueue, ops);
  }

  /** A pair takes both entries and no other, or nobody; the loser of a race over a player
      changes nothing. */
  lemma PairIsTwoSided(q: Queue, a: Player, b: Player, c: Player)
    ensures CanPair(q, a, b) ==> PairStep(q, a, b).waiting.Keys == q.waiting.Keys - {KeyOf(a), KeyOf(b)}
    ensures !CanPair(q, a, b) ==> PairStep(q, a, b) == q
    ensures CanPair(q, a, b) ==> PairStep(PairStep(q, a, b), a, c) == PairStep(q, a, b)
    ensures CanPair(q, a, b) ==> PairStep(PairStep(q, a, b), c, b) == PairStep(q, a, b)
  {
  }

  // ---- The repository -------------------------------------------------------------------

  function PlayerAt(q: Queue, key: Key): Player
    requires key in q.waiting
  {
    Player(key.user, key.mode, q.waiting[key].level, q.waiting[key].enqueuedAt)
  }

  /** The snapshot of one mode. */
  function Waiting(q: Queue, mode: Mode): set<Player> {
    set key | key in q.waiting && key.mode == mode :: PlayerAt(q, key)
  }

  lemma WaitingUsersDiffer(q: Queue, mode: Mode)
    ensures DistinctUsers(Waiting(q, mode))
  {
  }

  /** The hash may be read in any order: all listings of a queue give a candidate the same opponent. */
  lemma AnyListingChoosesTheSame(q: Queue, mode: Mode, xs: seq<Player>, ys: seq<Player>, candidate: Player, maxDist: Option<int>,
                                 a: Option<Player>, b: Option<Player>)
    requires Elements(xs) == Waiting(q, mode) == Elements(ys)
    requires IsNearest(candidate, Elements(xs), maxDist, a) && IsNearest(candidate, Elements(ys), maxDist, b)
    ensures a == b
  {
    WaitingUsersDiffer(q, mode);
    NearestIsUnique(candidate, Waiting(q, mode), maxDist, a, b);
  }

  /** What a later snapshot shows: an enqueue is listed with its level and time in place of any
      earlier entry of the user, a remove and a successful pair are not, and nobody else changes. */
  lemma ListFollowsTheOps(q: Queue, p: Player, a: Player, b: Player, mode: Mode, other: Player)
    requires other.mode == mode
    ensures p.mode == mode ==> p in Waiting(EnqueueStep(q, p), mode)
    ensures KeyOf(other) != KeyOf(p) ==> (other in Waiting(EnqueueStep(q, p), mode) <==> other in Waiting(q, mode))
    ensures other in Waiting(RemoveStep(q, KeyOf(p)), mode) <==> other in Waiting(q, mode) && KeyOf(other) != KeyOf(p)
    ensures CanPair(q, a, b) ==>
              (other in Waiting(PairStep(q, a, b), mode) <==> other in Waiting(q, mode) && KeyOf(other) != KeyOf(a) && KeyOf(other) != KeyOf(b))
  {
    Listed(q, mode, other);
    Listed(EnqueueStep(q, p), mode, other);
    Listed(EnqueueStep(q, p), mode, p);
    Listed(RemoveStep(q, KeyOf(p)), mode, other);
    Listed(PairStep(q, a, b), mode, other);
  }

  lemma Listed(q: Queue, mode: Mode, p: Player)
    ensures p in Waiting(q, mode) <==> p.mode == mode && KeyOf(p) in q.waiting && q.waiting[KeyOf(p)] == Entry(p.level, p.enqueuedAt)
  {
    if p.mode == mode && KeyOf(p) in q.waiting && q.waiting[KeyOf(p)] == Entry(p.level, p.enqueuedAt) {
      assert PlayerAt(q, KeyOf(p)) == p;
    }
  }

  class QueueRepository {
    var waiting: map<Key, Entry>
    ghost var created: multiset<Key>
    ghost var matched: multiset<Key>
    ghost var removed: multiset<Key>

    ghost function View(): Queue
      reads this
    {
      Queue(waiting, created, matched, removed)
    }

    constructor ()
      ensures View() == EmptyQueue
    {
      waiting, created, matched, removed := map[], multiset{}, multiset{}, multiset{};
    }

    method Enqueue(p: Player)
      modifies this
      ensures View() == EnqueueStep(old(View()), p)
      ensures waiting == old(waiting)[Key(p.mode, p.userId) := Entry(p.level, p.enqueuedAt)] && matched == old(matched) && removed == old(removed)
      ensures created == old(created) + if Key(p.mode, p.userId) in old(waiting) then multiset{} else multiset{Key(p.mode, p.userId)}
    {
      if KeyOf(p) !in waiting {
        created := created + multiset{KeyOf(p)};
      }
      waiting := waiting[KeyOf(p) := Entry(p.level, p.enqueuedAt)];
    }

    method Remove(mode: Mode, user: User) returns (found: bool)
      modifies this
      ensures View() == RemoveStep(old(View()), Key(mode, user))
      ensures found <==> Key(mode, user) in old(waiting)
      ensures waiting == old(waiting) - {Key(mode, user)} && created == old(created) && matched == old(matched)
      ensures removed == old(removed) + if found then multiset{Key(mode, user)} else multiset{}
    {
      found := Key(mode, user) in waiting;
      if found {
        waiting := waiting - {Key(mode, user)};
        removed := removed + multiset{Key(mode, user)};
      }
    }

    method Pair(a: Player, b: Player) returns (ok: bool)
      modifies this
      ensures View() == PairStep(old(View()), a, b)
      ensures ok <==> CanPair(old(View()), a, b)
      ensures ok <==> Key(a.mode, a.userId) in old(waiting) && Key(b.mode, b.userId) in old(waiting)
      ensures waiting == if ok then old(waiting) - {Key(a.mode, a.userId), Key(b.mode, b.userId)} else old(waiting)
      ensures matched == old(matched) + if ok then multiset{Key(a.mode, a.userId), Key(b.mode, b.userId)} else multiset{}
      ensures created == old(created) && removed == old(removed)
    {
      if KeyOf(a) !in waiting {
        return false;
      }
      if KeyOf(b) !in waiting {
        return false;
      }
      waiting := waiting - {KeyOf(a)};
      waiting := waiting - {KeyOf(b)};
      assert waiting == old(waiting) - {KeyOf(a), KeyOf(b)};
      matched := matched + multiset{KeyOf(a), KeyOf(b)};
      return true;
    }

    method ApplyOne(op: Op)
      modifies this
      ensures View() == Step(old(View()), op)
    {
      match op {
        case Enqueue(p) => Enqueue(p);
        case Remove(mode, user) => var found := Remove(mode, user);
        case Pair(a, b) => var ok := Pair(a, b);
      }
    }

    /** Every waiting player of the mode, once, in whatever order the hash is read. */
    method ListWaiting(mode: Mode) returns (players: seq<Player>)
      ensures Elements(players) == Waiting(View(), mode)
      ensures forall p :: p in players <==>
                p.mode == mode && Key(mode, p.userId) in waiting && waiting[Key(mode, p.userId)] == Entry(p.level, p.enqueuedAt)
      ensures forall i, j :: 0 <= i < j < |players| ==> players[i].userId != players[j].userId
    {
      players := [];
      var seen, todo := {}, waiting.Keys;
      while todo != {}
        invariant seen + todo == waiting.Keys && seen !! todo
        invariant forall p :: p in players <==> KeyOf(p) in seen && p.mode == mode && p == PlayerAt(View(), KeyOf(p))
        invariant forall i, j :: 0 <= i < j < |players| ==> players[i].userId != players[j].userId
        decreases todo
      {
        ghost var some: Key := Pick(todo);
        var key :| key in todo;
        if key.mode == mode {
          var p := Player(key.user, mode, waiting[key].level, waiting[key].enqueuedAt);
          assert forall o :: o in players ==> KeyOf(o) != key;
          players := players + [p];
        }
        seen, todo := seen + {key}, todo - {key};
      }
      assert seen == waiting.Keys;
      forall p ensures p in Elements(players) <==> p in Waiting(View(), mode) {
        assert p in Waiting(View(), mode) ==> KeyOf(p) in waiting;
      }
      forall p ensures p in Waiting(View(), mode) <==>
                         p.mode == mode && Key(mode, p.userId) in waiting && waiting[Key(mode, p.userId)] == Entry(p.level, p.enqueuedAt)
      {
        Listed(View(), mode, p);
      }
    }
  }
}
