/** The input router as the object it is, the desktop's claims beside it; each event does what GestureModel says. */
module InputRouter {
  import opened GestureModel

  class Router {
    const answers: nat -> bool       // how the sinks in between answer, call by call
    var others: seq<nat>
    var owner: map<Kind, nat>        // swipeOwner, pinchOwner, holdOwner
    var locked: bool
    var bound: set<Kind>
    var owned: set<Kind>             // swipeOwned, pinchOwned
    var calls: seq<Call>

    ghost function View(): GestureModel.Router
      reads this
    {
      GestureModel.Router(others, owner, Desk(locked, bound, owned), calls)
    }

    constructor (between: seq<nat>, respond: nat -> bool, actions: set<Kind>)
      requires DESKTOP !in between && SEAT !in between
      ensures View() == GestureModel.Router(between, map[], Desk(false, actions, {}), []) && answers == respond
      ensures Inv(View())
    {
      answers, others, owner := respond, between, map[];
      locked, bound, owned, calls := false, actions, {}, [];
    }

    /** Call a sink. The desktop answers for itself and the seat claims everything. */
    method Tell(sink: nat, kind: Kind, what: What, own: bool) returns (claimed: bool)
      modifies this`calls, this`owned
      ensures View() == GestureModel.Tell(old(View()), sink, kind, what, own, answers)
      ensures claimed == Answer(old(View()), sink, kind, what, answers)
    {
      if sink == DESKTOP {
        match what
        case Began =>
          claimed := locked || (kind in bound && kind != Hold);
          owned := if claimed && kind != Hold then owned + {kind} else owned - {kind};
        case Moved =>
          claimed := kind in owned || locked;
        case Ended(_) =>
          claimed := kind in owned || locked;
          owned := owned - {kind};
      } else {
        claimed := sink == SEAT || answers(|calls|);
      }
      calls := calls + [Call(sink, kind, what, own, claimed)];
    }

    /** The test of a walk: is this the owner, or does it claim? */
    method Claims(sink: nat, kind: Kind, what: What, keeper: Option<nat>) returns (claimed: bool)
      modifies this`calls, this`owned
      ensures View() == Offered(old(View()), sink, kind, what, keeper, answers)
      ensures claimed == Stops(old(View()), sink, kind, what, keeper, answers)
    {
      if keeper == Some(sink) {
        return true;
      }
      claimed := Tell(sink, kind, what, false);
    }

    /** The first sink to claim an event, or the owner; no end test is needed, the seat claims it at the latest. */
    method Claimant(kind: Kind, what: What, keeper: Option<nat>) returns (sink: nat)
      modifies this`calls, this`owned
      ensures var (i, w) := Walk(old(View()), kind, what, keeper, 0, answers);
        View() == w && sink == Sinks(w)[i]
    {
      hide Walk, Sinks, Offered, Stops;
      var sinks := [DESKTOP] + others + [SEAT];
      SinksAre(View());
      var n := 0;
      WalkStep(View(), kind, what, keeper, n, answers);
      var claimed := Claims(sinks[n], kind, what, keeper);
      while !claimed
        invariant n < |sinks| && sinks == Sinks(View())
        invariant claimed ==> Walk(old(View()), kind, what, keeper, 0, answers) == (n, View())
        invariant !claimed ==>
          && n + 1 < |sinks|
          && Walk(old(View()), kind, what, keeper, 0, answers) == Walk(View(), kind, what, keeper, n + 1, answers)
        decreases |sinks| - n, !claimed
      {
        n := n + 1;
        WalkStep(View(), kind, what, keeper, n, answers);
        claimed := Claims(sinks[n], kind, what, keeper);
      }
      return sinks[n];
    }

    method SetLocked(lock: bool)
      modifies this`locked
      ensures View() == Do(old(View()), if lock then Lock else Unlock, answers)
    {
      locked := lock;
    }

    /** A sink in between dies: the weak owners that point to it forget it. */
    method Die(sink: nat)
      requires sink in others
      modifies this
      ensures View() == GestureModel.Die(old(View()), sink)
    {
      others := Without(others, sink);
      owner := map kind <- owner | owner[kind] != sink :: owner[kind];
      calls := calls + [Died(sink)];
    }

    method Begin(kind: Kind)
      modifies this
      ensures View() == GestureModel.Begin(old(View()), kind, answers)
    {
      hide GestureModel.Tell, Walk, Answer;
      if kind in owner {
        var told := Tell(owner[kind], kind, Ended(true), true);
      }
      owner := owner - {kind};
      assert kind !in old(owner) ==> owner == old(owner);
      var claimant := Claimant(kind, Began, None);
      owner := owner[kind := claimant];
    }

    method Update(kind: Kind) returns (taken: bool)
      modifies this
      ensures View() == GestureModel.Update(old(View()), kind, answers) && taken == (kind in old(owner))
    {
      hide GestureModel.Tell, Walk, Answer;
      if kind !in owner {
        return false;
      }
      var keeper := owner[kind];
      var sink := Claimant(kind, Moved, Some(keeper));
      if sink == keeper {
        var told := Tell(sink, kind, Moved, true);
      } else {
        owner := owner - {kind};
        var told := Tell(keeper, kind, Ended(true), true);
      }
      return true;
    }

    method End(kind: Kind, cancelled: bool) returns (taken: bool)
      modifies this
      ensures View() == GestureModel.End(old(View()), kind, cancelled, answers) && taken == (kind in old(owner))
    {
      hide GestureModel.Tell, Walk, Answer;
      if kind !in owner {
        return false;
      }
      var keeper := owner[kind];
      var sink := Claimant(kind, Ended(cancelled), Some(keeper));
      owner := owner - {kind};
      if sink == keeper {
        var told := Tell(sink, kind, Ended(cancelled), true);
      } else {
        var told := Tell(keeper, kind, Ended(true), true);
      }
      return true;
    }
  }

  predicate Stops(r: GestureModel.Router, s: nat, kind: Kind, what: What, owner: Option<nat>, answers: nat -> bool) {
    owner == Some(s) || Answer(r, s, kind, what, answers)
  }

  function Offered(r: GestureModel.Router, s: nat, kind: Kind, what: What, owner: Option<nat>, answers: nat -> bool)
    : GestureModel.Router
  {
    if owner == Some(s) then r else GestureModel.Tell(r, s, kind, what, false, answers)
  }

  lemma SinksAre(r: GestureModel.Router)
    ensures Sinks(r) == [DESKTOP] + r.others + [SEAT]
  {
  }

  /** One step of a walk; the seat, last of all, ends it. */
  lemma WalkStep(r: GestureModel.Router, kind: Kind, what: What, owner: Option<nat>, i: nat, answers: nat -> bool)
    requires i < |Sinks(r)|
    ensures var s := Sinks(r)[i];
      var t := Offered(r, s, kind, what, owner, answers);
      && Sinks(t) == Sinks(r)
      && (Stops(r, s, kind, what, owner, answers) ==> Walk(r, kind, what, owner, i, answers) == (i, t))
      && (!Stops(r, s, kind, what, owner, answers) ==>
        i + 1 < |Sinks(r)| && Walk(r, kind, what, owner, i, answers) == Walk(t, kind, what, owner, i + 1, answers))
  {
  }
}
