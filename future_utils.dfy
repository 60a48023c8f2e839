/** The completion-signalling primitives of src/include/future_utils.hpp.

    A thread of execution is not modelled. A wrapper's `worker` field stands for its
    `std::thread`: `Some(o)` while the thread is joinable, where `o` is the outcome the
    functor will produce; `None` once it has been joined or moved away, or when none was
    started. A thread finishing in the background is the atomic step `FinishWorker`,
    taken when the timing oracle says so; joining is `Wait`. `FutureWrapper<void>` is
    `FutureWrapper<()>`. */
module FutureUtils {
  import opened Common
  import opened Sequences

  /** The signal shared by every attempt of one race. */
  class Token {
    var completed: bool

    constructor ()
      ensures !completed
    {
      completed := false;
    }

    /** A finishing worker sets `completed` under the token's lock and wakes the waiters. */
    method Complete()
      modifies this
      ensures completed
    {
      completed := true;
    }

    /** The race's `token->completed = false` right after its bounded wait. */
    method Reset()
      modifies this
      ensures !completed
    {
      completed := false;
    }
  }

  /** The state one attempt's worker writes: `ready`, and exactly one of the result
      and the exception once it is ready. A written field is `Some`. */
  class AttemptState<T> {
    var ready: bool
    var result: Option<T>
    var exception: Option<Exception>

    constructor ()
      ensures Valid() && !ready && result == None && exception == None
    {
      ready := false;
      result := None;
      exception := None;
    }

    ghost predicate Valid()
      reads this
    {
      if ready then result.Some? != exception.Some? else result.None? && exception.None?
    }

    /** What a ready attempt hands to `Get`: its exception if it stored one, else its result. */
    function Stored(): (o: Outcome<T>)
      reads this
      requires Valid() && ready
      ensures o.Threw? <==> exception.Some?
      ensures o.Threw? ==> exception == Some(o.error)
      ensures o.Returned? ==> result == Some(o.value)
    {
      if exception.Some? then Threw(exception.value) else Returned(result.value)
    }
  }

  /** The body of the thread `CreateFuture` starts, once its functor has produced
      `outcome`: store exactly one of result and exception and set `ready`, then set
      the token's `completed`. */
  method RunWorker<T>(outcome: Outcome<T>, state: AttemptState<T>, tok: Token)
    requires state.Valid() && !state.ready
    modifies state, tok
    ensures state.Valid() && state.ready && state.Stored() == outcome
    ensures tok.completed
  {
    match outcome {
      case Returned(v) =>
        state.result := Some(v);
        state.ready := true;
      case Threw(e) =>
        state.exception := Some(e);
        state.ready := true;
    }
    tok.Complete();
  }

  class FutureWrapper<T> {
    var token: Token?
    var state: AttemptState?<T>
    var worker: Option<Outcome<T>>

    ghost predicate Valid()
      reads this, state
    {
      && (worker.Some? ==> token != null && state != null)
      && (state != null ==> state.Valid())
      // a joined thread has finished
      && (state != null && worker.None? ==> state.ready)
      // a finished thread stored what its functor produced
      && (state != null && worker.Some? && state.ready ==> state.Stored() == worker.value)
    }

    /** `FutureWrapper() = default`: no token, no state, no thread. */
    constructor ()
      ensures Valid() && token == null && state == null && worker == None
      ensures !IsReady()
    {
      token := null;
      state := null;
      worker := None;
    }

    /** `CreateFuture(functor, token)`: a fresh state and a started thread whose
        functor will produce `outcome`. */
    constructor Create(outcome: Outcome<T>, token: Token)
      ensures Valid() && this.token == token && state != null && fresh(state)
      ensures worker == Some(outcome) && !IsReady()
    {
      this.token := token;
      state := new AttemptState();
      worker := Some(outcome);
    }

    /** The move constructor: token, state and thread pass to the new wrapper and
        `other` keeps none of them. */
    constructor Move(other: FutureWrapper<T>)
      requires other.Valid()
      modifies other
      ensures Valid()
      ensures token == old(other.token) && state == old(other.state) && worker == old(other.worker)
      ensures other.Valid() && other.token == null && other.state == null && other.worker == None
      ensures IsReady() == old(other.IsReady()) && !other.IsReady()
    {
      token := other.token;
      state := other.state;
      worker := other.worker;
      new;
      other.token := null;
      other.state := null;
      other.worker := None;
    }

    /** Move assignment. Assigning a wrapper to itself changes nothing. A `std::thread`
        must not be move-assigned over a joinable one (that calls `std::terminate`),
        so a different source needs this wrapper's thread to be gone. */
    method MoveAssign(other: FutureWrapper<T>)
      requires Valid() && other.Valid()
      requires this != other ==> worker == None
      modifies this, other
      ensures Valid() && other.Valid()
      ensures this == other ==> token == old(token) && state == old(state) && worker == old(worker)
      ensures this != other ==>
                && token == old(other.token) && state == old(other.state) && worker == old(other.worker)
                && other.token == null && other.state == null && other.worker == None
    {
      if this != other {
        token := other.token;
        state := other.state;
        worker := other.worker;
        other.token := null;
        other.state := null;
        other.worker := None;
      }
    }

    /** The non-blocking probe: false when there is no state, else the state's flag. */
    function IsReady(): (r: bool)
      reads this, state
      ensures r <==> state != null && state.ready
    {
      state != null && state.ready
    }

    /** The outcome this attempt yields to `Get`, whether or not its thread has finished. */
    ghost function Eventual(): Outcome<T>
      reads this, state
      requires Valid() && state != null
    {
      if worker.Some? then worker.value else state.Stored()
    }

    /** The thread runs to completion now: the oracle's step for a background finish. */
    method FinishWorker()
      requires Valid() && worker.Some? && !IsReady()
      modifies state, token
      ensures Valid() && IsReady() && token.completed
      ensures state.Stored() == worker.value
    {
      RunWorker(worker.value, state, token);
    }

    /** `Wait`: join the thread if it is joinable; the attempt is then ready and holds
        the outcome it was going to produce. The destructor does the same. */
    method Wait()
      requires Valid()
      modifies this, state, token
      ensures state == old(state) && token == old(token)
      ensures Valid() && worker == None
      ensures state != null ==> IsReady() && state.Stored() == old(Eventual())
    {
      if worker.Some? {
        if !state.ready {
          RunWorker(worker.value, state, token);
        }
        worker := None;
      }
    }

    /** `Get`: wait, then re-raise the stored exception or return the stored result. */
    method Get() returns (o: Outcome<T>)
      requires Valid() && state != null
      modifies this, state, token
      ensures state == old(state) && token == old(token)
      ensures Valid() && worker == None && IsReady()
      ensures o == old(Eventual())
    {
      Wait();
      o := state.Stored();
    }
  }

  /** The state objects behind a vector of wrappers. */
  ghost function States<T>(futs: seq<FutureWrapper<T>>): set<AttemptState?<T>>
    reads futs
  {
    set i | 0 <= i < |futs| :: futs[i].state
  }

  /** The attempts of one race: each well formed and signalling `token`, no two
      sharing a state. */
  ghost predicate RaceAttempts<T>(futs: seq<FutureWrapper<T>>, token: Token)
    reads futs, States(futs)
  {
    && (forall i :: 0 <= i < |futs| ==> futs[i].Valid())
    && (forall i :: 0 <= i < |futs| ==> futs[i].token == token && futs[i].state != null)
    && (forall i, j :: 0 <= i < j < |futs| ==> futs[i].state != futs[j].state)
  }

  /** Readiness of each attempt, position by position. */
  ghost function ReadyMask<T>(futs: seq<FutureWrapper<T>>): (m: seq<bool>)
    reads futs, States(futs)
    ensures |m| == |futs|
    ensures forall i :: 0 <= i < |futs| ==> m[i] == futs[i].IsReady()
  {
    if futs == [] then []
    else
      assert States(futs[1..]) <= States(futs) by {
        forall s | s in States(futs[1..]) ensures s in States(futs) {
          var i :| 0 <= i < |futs[1..]| && futs[1..][i].state == s;
          assert futs[i + 1].state == s;
        }
      }
      [futs[0].IsReady()] + ReadyMask(futs[1..])
  }

  /** The partition loop of `WaitForAny`: not-ready attempts to `unready`, ready ones
      to `remaining`, each in input order. */
  method SplitByReadiness<T>(futs: seq<FutureWrapper<T>>)
    returns (unready: seq<FutureWrapper<T>>, remaining: seq<FutureWrapper<T>>)
    ensures unready == Select(futs, ReadyMask(futs), false)
    ensures remaining == Select(futs, ReadyMask(futs), true)
  {
    ghost var mask := ReadyMask(futs);
    unready, remaining := [], [];
    for k := 0 to |futs|
      invariant unready == Select(futs[..k], mask[..k], false)
      invariant remaining == Select(futs[..k], mask[..k], true)
    {
      SelectExtend(futs, mask, false, k);
      SelectExtend(futs, mask, true, k);
      if !futs[k].IsReady() {
        unready := unready + [futs[k]];
      } else {
        remaining := remaining + [futs[k]];
      }
    }
    assert futs[..|futs|] == futs && mask[..|futs|] == mask;
    assert mask == ReadyMask(futs);
  }

  /** Attempt `k`'s thread finishes in the background; the other attempts are untouched. */
  method FinishAttempt<T>(futs: seq<FutureWrapper<T>>, token: Token, k: nat)
    requires RaceAttempts(futs, token) && k < |futs| && !futs[k].IsReady()
    modifies futs[k].state, token
    ensures RaceAttempts(futs, token) && token.completed && futs[k].IsReady()
    ensures forall i :: 0 <= i < |futs| && i != k ==> futs[i].IsReady() == old(futs[i].IsReady())
    ensures forall i :: 0 <= i < |futs| ==> futs[i].Eventual() == old(futs[i].Eventual())
  {
    ghost var others := set i | 0 <= i < |futs| && i != k :: futs[i].state;
    assert futs[k].state !in others;
    futs[k].FinishWorker();
    forall i | 0 <= i < |futs| && i != k
      ensures futs[i].Valid() && futs[i].IsReady() == old(futs[i].IsReady())
      ensures futs[i].Eventual() == old(futs[i].Eventual())
    {
      assert futs[i].state in others;
    }
  }

  /** The blocking wait of `WaitForAny`: the threads the oracle names in `finishing`
      run to completion, until the token reports `completed`. If no attempt can set it
      the source blocks forever, so one must be able to. */
  method AwaitCompletion<T>(futs: seq<FutureWrapper<T>>, token: Token, finishing: seq<bool>)
    requires RaceAttempts(futs, token) && |finishing| == |futs|
    requires token.completed || exists i :: 0 <= i < |futs| && finishing[i] && !futs[i].IsReady()
    modifies States(futs), token
    ensures RaceAttempts(futs, token) && token.completed
    ensures forall i :: 0 <= i < |futs| ==> futs[i].IsReady() == (old(futs[i].IsReady()) || finishing[i])
    ensures forall i :: 0 <= i < |futs| ==> futs[i].Eventual() == old(futs[i].Eventual())
  {
    for k := 0 to |futs|
      invariant RaceAttempts(futs, token)
      invariant forall i :: 0 <= i < k ==> futs[i].IsReady() == (old(futs[i].IsReady()) || finishing[i])
      invariant forall i :: k <= i < |futs| ==> futs[i].IsReady() == old(futs[i].IsReady())
      invariant forall i :: 0 <= i < |futs| ==> futs[i].Eventual() == old(futs[i].Eventual())
      invariant old(token.completed) ==> token.completed
      invariant (exists i :: 0 <= i < k && finishing[i] && !old(futs[i].IsReady())) ==> token.completed
    {
      if finishing[k] && !futs[k].IsReady() {
        FinishAttempt(futs, token, k);
      }
    }
  }

  /** `WaitForAny`: wait until the token reports a completion, then split the attempts
      into the not-ready part (returned) and the ready part (left in `futs`, here the
      second result), both in input order. `finishing[i]` is the oracle: whether
      attempt `i`'s thread finishes before the wait returns. */
  method WaitForAny<T>(futs: seq<FutureWrapper<T>>, token: Token, finishing: seq<bool>)
    returns (unready: seq<FutureWrapper<T>>, remaining: seq<FutureWrapper<T>>)
    requires RaceAttempts(futs, token) && |finishing| == |futs|
    requires token.completed || exists i :: 0 <= i < |futs| && finishing[i] && !futs[i].IsReady()
    modifies States(futs), token
    ensures RaceAttempts(futs, token) && token.completed
    ensures forall i :: 0 <= i < |futs| ==> futs[i].IsReady() == (old(futs[i].IsReady()) || finishing[i])
    ensures forall i :: 0 <= i < |futs| ==> futs[i].Eventual() == old(futs[i].Eventual())
    ensures unready == Select(futs, ReadyMask(futs), false)
    ensures remaining == Select(futs, ReadyMask(futs), true)
  {
    AwaitCompletion(futs, token, finishing);
    unready, remaining := SplitByReadiness(futs);
  }

  /** Two attempts on one token, the first answering 1 at once and the second 2 later:
      the wait returns with one attempt still pending and the fast one ready. */
  method WaitForAnyScenario() returns (pendingCount: nat, result: Outcome<int>)
    ensures pendingCount == 1 && result == Returned(1)
  {
    var token := new Token();
    var fast := new FutureWrapper.Create(Returned(1), token);
    var slow := new FutureWrapper.Create(Returned(2), token);
    var futs := [fast, slow];
    assert RaceAttempts(futs, token);
    assert [true, false][0] && !futs[0].IsReady();
    var unready, remaining := WaitForAny(futs, token, [true, false]);
    assert ReadyMask(futs) == [true, false];
    SelectPair(fast, slow, true, false, false);
    SelectPair(fast, slow, true, false, true);
    pendingCount := |unready|;
    result := remaining[0].Get();
  }
}
