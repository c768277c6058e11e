/** Concurrent uploads of king clips: drawing an id, inserting the row and deleting the superseded
    rows are separate steps of every upload, and clips may also be deleted one by one. */
module KingClips {
  import opened Options

  type ClipId = nat

  datatype Hill = Hill(name: string)

  /** The upload whose id is its position; the times are those of its two statements. */
  datatype Upload = Upload(hill: Hill, insertedAt: Option<nat>, supersededAt: Option<nat>, deleted: bool)

  datatype State = State(clock: nat, uploads: seq<Upload>, rows: set<ClipId>)

  datatype Event =
    | Begin(hill: Hill)
    | Insert(id: ClipId)
    | Supersede(id: ClipId)
    | Delete(id: ClipId)

  const NoClips := State(0, [], {})

  // ---- Steps ----------------------------------------------------------------------------

  /** The rows that `delete … where hill_type = hill and id < keepId` leaves. */
  function Spared(uploads: seq<Upload>, rows: set<ClipId>, hill: Hill, keepId: ClipId): set<ClipId> {
    set x | x in rows && !(x < |uploads| && uploads[x].hill == hill && x < keepId)
  }

  /** Each statement runs once per upload, the supersede after the insert; a delete finds only a
      row that is there.  An upload whose supersede fails never takes that step. */
  function Step(s: State, e: Event): State {
    var t := s.(clock := s.clock + 1);
    match e
    case Begin(hill) => t.(uploads := s.uploads + [Upload(hill, None, None, false)])
    case Insert(id) =>
      if id >= |s.uploads| || s.uploads[id].insertedAt.Some? then t
      else t.(uploads := s.uploads[id := s.uploads[id].(insertedAt := Some(s.clock))], rows := s.rows + {id})
    case Supersede(id) =>
      if id >= |s.uploads| || s.uploads[id].insertedAt.None? || s.uploads[id].supersededAt.Some? then t
      else t.(uploads := s.uploads[id := s.uploads[id].(supersededAt := Some(s.clock))],
              rows := Spared(s.uploads, s.rows, s.uploads[id].hill, id))
    case Delete(id) =>
      if id >= |s.uploads| || id !in s.rows then t
      else t.(uploads := s.uploads[id := s.uploads[id].(deleted := true)], rows := s.rows - {id})
  }

  function Run(es: seq<Event>): State {
    if es == [] then NoClips else Step(Run(es[..|es| - 1]), es[|es| - 1])
  }

  // ---- What one statement does ----------------------------------------------------------

  /** A begin draws the next id; an insert puts its row there, once; a supersede, once and after the
      insert, removes exactly the rows of lower ids on its hill; a delete removes a row that is there. */
  lemma StatementsEffect(s: State, hill: Hill, id: ClipId)
    ensures Step(s, Begin(hill)) == State(s.clock + 1, s.uploads + [Upload(hill, None, None, false)], s.rows)
    ensures id < |s.uploads| && s.uploads[id].insertedAt == None ==>
              Step(s, Insert(id)) == State(s.clock + 1, s.uploads[id := s.uploads[id].(insertedAt := Some(s.clock))], s.rows + {id})
    ensures id < |s.uploads| && s.uploads[id].insertedAt.Some? && s.uploads[id].supersededAt == None ==>
              var s' := Step(s, Supersede(id));
              && s'.clock == s.clock + 1 && s'.uploads == s.uploads[id := s.uploads[id].(supersededAt := Some(s.clock))]
              && forall x :: x in s'.rows <==> x in s.rows && !(x < |s.uploads| && s.uploads[x].hill == s.uploads[id].hill && x < id)
    ensures id < |s.uploads| && id in s.rows ==>
              Step(s, Delete(id)) == State(s.clock + 1, s.uploads[id := s.uploads[id].(deleted := true)], s.rows - {id})
  {
  }

  // ---- Which rows are there -------------------------------------------------------------

  /** Upload `y` has a higher id on the hill and superseded after `x` was inserted. */
  predicate Erases(s: State, y: ClipId, x: ClipId) {
    && x < y < |s.uploads| && s.uploads[y].hill == s.uploads[x].hill
    && s.uploads[x].insertedAt.Some? && s.uploads[y].supersededAt.Some?
    && s.uploads[x].insertedAt.value < s.uploads[y].supersededAt.value
  }

  predicate Survives(s: State, x: ClipId) {
    && x < |s.uploads| && s.uploads[x].insertedAt.Some? && !s.uploads[x].deleted
    && forall y :: x < y < |s.uploads| ==> !Erases(s, y, x)
  }

  predicate TimesOk(u: Upload, clock: nat) {
    && (u.insertedAt.Some? ==> u.insertedAt.value < clock)
    && (u.supersededAt.Some? ==> u.insertedAt.Some? && u.insertedAt.value < u.supersededAt.value < clock)
    && (u.deleted ==> u.insertedAt.Some?)
  }

  ghost predicate Inv(s: State) {
    && (forall x :: 0 <= x < |s.uploads| ==> TimesOk(s.uploads[x], s.clock))
    && (forall x: ClipId :: x in s.rows <==> Survives(s, x))
  }

  lemma BeginKeepsInv(s: State, hill: Hill)
    requires Inv(s)
    ensures Inv(Step(s, Begin(hill)))
  {
    var s' := Step(s, Begin(hill));
    forall x: ClipId ensures x in s'.rows <==> Survives(s', x) {
      if x < |s.uploads| && s.uploads[x].insertedAt.Some? {
        assert forall y :: x < y < |s.uploads| ==> Erases(s', y, x) == Erases(s, y, x);
        assert !Erases(s', |s.uploads|, x);
      }
    }
  }

  lemma InsertKeepsInv(s: State, id: ClipId)
    requires Inv(s)
    ensures Inv(Step(s, Insert(id)))
  {
    var s' := Step(s, Insert(id));
    forall x: ClipId ensures x in s'.rows <==> Survives(s', x) {
      if x < |s.uploads| && s.uploads[x].insertedAt.Some? {
        assert forall y :: x < y < |s.uploads| ==> Erases(s', y, x) == Erases(s, y, x);
      } else if x == id < |s.uploads| {
        assert TimesOk(s.uploads[x], s.clock);
        forall y | x < y < |s'.uploads| ensures !Erases(s', y, x) {
          assert TimesOk(s.uploads[y], s.clock);
        }
      }
    }
  }

  lemma SupersedeKeepsInv(s: State, id: ClipId)
    requires Inv(s)
    ensures Inv(Step(s, Supersede(id)))
  {
    var s' := Step(s, Supersede(id));
    if id < |s.uploads| && s.uploads[id].insertedAt.Some? && s.uploads[id].supersededAt.None? {
      forall x: ClipId ensures x in s'.rows <==> Survives(s', x) {
        if x < |s.uploads| && s.uploads[x].insertedAt.Some? {
          assert TimesOk(s.uploads[x], s.clock);
          assert forall y :: x < y < |s.uploads| && y != id ==> Erases(s', y, x) == Erases(s, y, x);
          assert !Erases(s, id, x);
          assert Erases(s', id, x) <==> x < id && s.uploads[x].hill == s.uploads[id].hill;
        }
      }
    } else {
      RowsStand(s, s');
    }
  }

  lemma RowsStand(s: State, s': State)
    requires Inv(s) && s' == s.(clock := s.clock + 1)
    ensures Inv(s')
  {
    forall x: ClipId ensures Survives(s', x) == Survives(s, x) {
      if x < |s.uploads| && s.uploads[x].insertedAt.Some? {
        assert forall y :: x < y < |s.uploads| ==> Erases(s', y, x) == Erases(s, y, x);
      }
    }
  }

  lemma DeleteKeepsInv(s: State, id: ClipId)
    requires Inv(s)
    ensures Inv(Step(s, Delete(id)))
  {
    var s' := Step(s, Delete(id));
    forall x: ClipId ensures x in s'.rows <==> Survives(s', x) {
      if x < |s.uploads| && s.uploads[x].insertedAt.Some? {
        assert forall y :: x < y < |s.uploads| ==> Erases(s', y, x) == Erases(s, y, x);
      }
    }
  }

  lemma {:induction false} RunKeepsInv(es: seq<Event>)
    ensures Inv(Run(es))
  {
    if es != [] {
      var s := Run(es[..|es| - 1]);
      RunKeepsInv(es[..|es| - 1]);
      match es[|es| - 1]
      case Begin(hill) => BeginKeepsInv(s, hill);
      case Insert(id) => InsertKeepsInv(s, id);
      case Supersede(id) => SupersedeKeepsInv(s, id);
      case Delete(id) => DeleteKeepsInv(s, id);
    }
  }

  // ---- Main results ---------------------------------------------------------------------

  /** In every reachable state a clip is there if and only if it was inserted, was not deleted,
      and no upload of a higher id on its hill has superseded since. */
  lemma {:induction false} ClipsPresent(es: seq<Event>, x: ClipId)
    ensures var s := Run(es);
            x in s.rows <==>
              && x < |s.uploads| && s.uploads[x].insertedAt.Some? && !s.uploads[x].deleted
              && forall y :: x < y < |s.uploads| && s.uploads[y].hill == s.uploads[x].hill && s.uploads[y].supersededAt.Some? ==>
                   s.uploads[y].supersededAt.value <= s.uploads[x].insertedAt.value
  {
    RunKeepsInv(es);
    var s := Run(es);
    if x < |s.uploads| && s.uploads[x].insertedAt.Some? {
      forall y | x < y < |s.uploads|
        ensures Erases(s, y, x) <==> s.uploads[y].hill == s.uploads[x].hill && s.uploads[y].supersededAt.Some?
                                     && s.uploads[x].insertedAt.value < s.uploads[y].supersededAt.value
      {
      }
    }
  }

  /** No upload removes a clip with its own id or a higher one, or of another hill, or leaves a
      lower one of its own hill. */
  lemma SupersedeRemovesExactly(s: State, id: ClipId, x: ClipId)
    requires id < |s.uploads| && s.uploads[id].insertedAt.Some? && s.uploads[id].supersededAt.None?
    requires x in s.rows && x < |s.uploads|
    ensures x !in Step(s, Supersede(id)).rows <==> x < id && s.uploads[x].hill == s.uploads[id].hill
  {
  }

  /** Over every interleaving the highest id inserted so far on a hill is there unless it was deleted itself. */
  lemma {:induction false} NewestIsNeverErased(es: seq<Event>, x: ClipId)
    requires var s := Run(es);
             && x < |s.uploads| && s.uploads[x].insertedAt.Some?
             && forall y :: x < y < |s.uploads| && s.uploads[y].hill == s.uploads[x].hill ==> s.uploads[y].insertedAt.None?
    ensures x in Run(es).rows <==> !Run(es).uploads[x].deleted
  {
    RunKeepsInv(es);
    var s := Run(es);
    forall y | x < y < |s.uploads| ensures !Erases(s, y, x) {
      assert TimesOk(s.uploads[y], s.clock);
    }
  }

  predicate AllFinished(s: State, hill: Hill) {
    forall x :: 0 <= x < |s.uploads| && s.uploads[x].hill == hill ==>
      s.uploads[x].insertedAt.Some? && s.uploads[x].supersededAt.Some? && !s.uploads[x].deleted
  }

  /** When all uploads to a hill have finished, the highest id remains, and it is the only one if
      and only if every other row was in place before some higher upload superseded. */
  lemma {:induction false} OneClipRemainsIff(es: seq<Event>, top: ClipId)
    requires top < |Run(es).uploads| && AllFinished(Run(es), Run(es).uploads[top].hill)
    requires forall y :: top < y < |Run(es).uploads| ==> Run(es).uploads[y].hill != Run(es).uploads[top].hill
    ensures var s := Run(es);
            var hill := s.uploads[top].hill;
            && top in s.rows
            && ((forall x :: x in s.rows && x < |s.uploads| && s.uploads[x].hill == hill ==> x == top)
                <==>
                (forall x :: 0 <= x < top && s.uploads[x].hill == hill ==>
                   exists y :: x < y < |s.uploads| && s.uploads[y].hill == hill && s.uploads[x].insertedAt.value < s.uploads[y].supersededAt.value))
  {
    RunKeepsInv(es);
    var s := Run(es);
    var hill := s.uploads[top].hill;
    assert TimesOk(s.uploads[top], s.clock) && Survives(s, top);
    forall x | 0 <= x < top && s.uploads[x].hill == hill
      ensures x !in s.rows <==>
                exists y :: x < y < |s.uploads| && s.uploads[y].hill == hill && s.uploads[x].insertedAt.value < s.uploads[y].supersededAt.value
    {
      ErasedIff(s, x);
    }
  }

  /** When everything on its hill has finished a row is gone exactly when some higher upload of the
      hill superseded after it was inserted. */
  lemma ErasedIff(s: State, x: ClipId)
    requires Inv(s) && x < |s.uploads| && AllFinished(s, s.uploads[x].hill)
    ensures x !in s.rows <==>
              exists y :: x < y < |s.uploads| && s.uploads[y].hill == s.uploads[x].hill
                          && s.uploads[x].insertedAt.value < s.uploads[y].supersededAt.value
  {
    assert x in s.rows <==> Survives(s, x);
    if y :| x < y < |s.uploads| && s.uploads[y].hill == s.uploads[x].hill && s.uploads[x].insertedAt.value < s.uploads[y].supersededAt.value {
      assert Erases(s, y, x);
    }
  }

  /** If `y` was inserted, so was `x`, and earlier. */
  predicate Before(s: State, x: ClipId, y: ClipId) {
    x < |s.uploads| && y < |s.uploads| &&
    (s.uploads[y].insertedAt.Some? ==> s.uploads[x].insertedAt.Some? && s.uploads[x].insertedAt.value < s.uploads[y].insertedAt.value)
  }

  /** So with rows visible in id order exactly one clip, the highest, remains. */
  lemma {:induction false} OneClipRemains(es: seq<Event>, top: ClipId)
    requires top < |Run(es).uploads| && AllFinished(Run(es), Run(es).uploads[top].hill)
    requires forall y :: top < y < |Run(es).uploads| ==> Run(es).uploads[y].hill != Run(es).uploads[top].hill
    requires var s := Run(es);
             forall x, y :: 0 <= x < y < |s.uploads| && s.uploads[x].hill == s.uploads[y].hill == s.uploads[top].hill && s.uploads[y].insertedAt.Some? ==>
               s.uploads[x].insertedAt.Some? && s.uploads[x].insertedAt.value < s.uploads[y].insertedAt.value
    ensures var s := Run(es); forall x :: x in s.rows && x < |s.uploads| && s.uploads[x].hill == s.uploads[top].hill <==> x == top
  {
    var s := Run(es);
    RunKeepsInv(es);
    OneClipRemainsIff(es, top);
    forall x | 0 <= x < top && s.uploads[x].hill == s.uploads[top].hill
      ensures s.uploads[x].insertedAt.value < s.uploads[top].supersededAt.value
    {
      assert TimesOk(s.uploads[top], s.clock);
    }
  }

  /** Every id drawn is inserted by the very next step: drawing and inserting are one. */
  predicate CreatesAtOnce(es: seq<Event>) {
    forall i :: 0 <= i < |es| ==> CreatedAtOnce(es, i)
  }

  predicate CreatedAtOnce(es: seq<Event>, i: nat)
    requires i < |es|
  {
    es[i].Begin? ==> i + 1 < |es| && es[i + 1] == Insert(|Run(es[..i]).uploads|)
  }

  predicate InTurn(s: State) {
    forall x, y :: 0 <= x < y < |s.uploads| ==> Before(s, x, y)
  }

  predicate LastIsOpen(s: State) {
    s.uploads != [] && s.uploads[|s.uploads| - 1].insertedAt.None?
  }

  /** Between begins every upload has its row; an open one is inserted by the next step. */
  predicate OthersInserted(s: State) {
    forall x :: 0 <= x < |s.uploads| - 1 ==> s.uploads[x].insertedAt.Some?
  }

  lemma StepStaysInTurn(s: State, e: Event)
    requires Inv(s) && InTurn(s) && OthersInserted(s)
    requires LastIsOpen(s) ==> e == Insert(|s.uploads| - 1)
    ensures var s' := Step(s, e);
            InTurn(s') && OthersInserted(s') && (LastIsOpen(s') ==> e.Begin? && |s'.uploads| == |s.uploads| + 1)
  {
    var s' := Step(s, e);
    assert e.Insert? && e.id < |s.uploads| && s.uploads[e.id].insertedAt.None? ==> LastIsOpen(s) && e.id == |s.uploads| - 1;
    forall x, y | 0 <= x < y < |s'.uploads| ensures Before(s', x, y) {
      if y < |s.uploads| {
        assert Before(s, x, y) && TimesOk(s.uploads[x], s.clock);
      }
    }
  }

  lemma {:induction false} AtOnceIsInTurn(es: seq<Event>, n: nat)
    requires CreatesAtOnce(es) && n <= |es|
    ensures var s := Run(es[..n]);
            InTurn(s) && OthersInserted(s)
            && (LastIsOpen(s) ==> n > 0 && es[n - 1].Begin? && |s.uploads| == |Run(es[..n - 1]).uploads| + 1)
  {
    if n > 0 {
      assert es[..n][..n - 1] == es[..n - 1];
      AtOnceIsInTurn(es, n - 1);
      RunKeepsInv(es[..n - 1]);
      if n > 1 {
        assert CreatedAtOnce(es, n - 2);
      }
      StepStaysInTurn(Run(es[..n - 1]), es[n - 1]);
    }
  }

  /** With creation as one step exactly one clip per hill remains, over every interleaving of
      creations and supersedes. */
  lemma {:induction false} OneClipRemainsWhenAtOnce(es: seq<Event>, top: ClipId)
    requires forall i :: 0 <= i < |es| && es[i].Begin? ==>
               exists j :: j == i + 1 && 0 <= j < |es| && es[j] == Insert(|Run(es[..i]).uploads|)
    requires top < |Run(es).uploads| && AllFinished(Run(es), Run(es).uploads[top].hill)
    requires forall y :: top < y < |Run(es).uploads| ==> Run(es).uploads[y].hill != Run(es).uploads[top].hill
    ensures var s := Run(es); forall x :: x in s.rows && x < |s.uploads| && s.uploads[x].hill == s.uploads[top].hill <==> x == top
  {
    AtOnceIsInTurn(es, |es|);
    assert es[..|es|] == es;
    var s := Run(es);
    forall x, y | 0 <= x < y < |s.uploads| && s.uploads[y].insertedAt.Some?
      ensures s.uploads[x].insertedAt.Some? && s.uploads[x].insertedAt.value < s.uploads[y].insertedAt.value
    {
      assert Before(s, x, y);
    }
    OneClipRemains(es, top);
  }

  /** Without that order two clips can remain: the second upload inserts and supersedes between
      the first one's drawing its id and its insert. */
  lemma TwoClipsCanRemain(hill: Hill)
    ensures var s := Run([Begin(hill), Begin(hill), Insert(1), Supersede(1), Insert(0), Supersede(0)]);
            && |s.uploads| == 2 && s.rows == {0, 1}
            && s.uploads[0].hill == hill && s.uploads[0].supersededAt.Some? && s.uploads[1].hill == hill && s.uploads[1].supersededAt.Some?
  {
    var e1 := [Begin(hill)];
    var e2 := e1 + [Begin(hill)];
    var e3 := e2 + [Insert(1)];
    var e4 := e3 + [Supersede(1)];
    var e5 := e4 + [Insert(0)];
    RunOneMore([], Begin(hill));
    RunOneMore(e1, Begin(hill));
    RunOneMore(e2, Insert(1));
    RunOneMore(e3, Supersede(1));
    RunOneMore(e4, Insert(0));
    RunOneMore(e5, Supersede(0));
    assert e5 + [Supersede(0)] == [Begin(hill), Begin(hill), Insert(1), Supersede(1), Insert(0), Supersede(0)];
    var second := Upload(hill, Some(2), Some(3), false);
    assert Run(e4).uploads == [Upload(hill, None, None, false), second] && Run(e4).rows == {1};
    assert Run(e5 + [Supersede(0)]).uploads == [Upload(hill, Some(4), Some(5), false), second];
  }

  lemma RunOneMore(es: seq<Event>, e: Event)
    ensures Run(es + [e]) == Step(Run(es), e)
  {
    assert (es + [e])[..|es|] == es;
  }
}
