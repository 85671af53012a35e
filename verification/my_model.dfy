/**
 * `MyModelFactory.MyModel`: the game model that holds the current game state and the set of
 * registered observers, advances the state on a chosen move and tells every observer.
 */
module Models {
  import opened Wrappers
  import opened Moves
  import opened Boards

  /** `Observer.Event`. */
  datatype Event = MoveMade | GameOver

  /** The event announced after a move: `GAME_OVER` when the new board has a winner. */
  function EventFor(b: Board): Event {
    if b.winner == {} then MoveMade else GameOver
  }

  /** For a board keeping its promises, `MOVE_MADE` is announced exactly when play can go on. */
  lemma EventForOngoing(b: Board)
    requires BoardContract(b)
    ensures EventFor(b) == MoveMade <==> b.availableMoves != {}
    ensures EventFor(b) == GameOver <==> IsOver(b)
  {
  }

  /** The exceptions of `registerObserver` and `unregisterObserver`. */
  datatype ObserverError = NullObserver | IllegalObserver

  /**
   * An observer; it keeps, in order, every `onModelChanged` call it receives (the interface's
   * default body does nothing, and the tests record the calls with mocks).
   */
  class Observer {
    var received: seq<(Board, Event)>

    constructor ()
      ensures received == []
    {
      received := [];
    }

    /** `onModelChanged(board, event)`. */
    method OnModelChanged(board: Board, event: Event)
      modifies this
      ensures received == old(received) + [(board, event)]
    {
      received := received + [(board, event)];
    }
  }

  /**
   * The observer set after `registerObserver(o)`: an observer already present is refused;
   * `null` is not found in the set, gets into the intermediate hash set and is refused by
   * `ImmutableSet.copyOf`; any other observer joins the set.
   */
  function Registered(observers: set<Observer>, o: Observer?): (r: Result<set<Observer>, ObserverError>)
    ensures r.Failure? <==> o == null || o in observers
    ensures r.Failure? ==> r.error == (if o == null then NullObserver else IllegalObserver)
    ensures r.Success? ==> o in r.value && r.value - {o} == observers
  {
    if o in observers then Failure(IllegalObserver)
    else if o == null then Failure(NullObserver)
    else Success(observers + {o})
  }

  /**
   * The observer set after `unregisterObserver(o)`: `null` and an observer not present are
   * refused; otherwise every observer other than `o` stays.
   */
  function Unregistered(observers: set<Observer>, o: Observer?): (r: Result<set<Observer>, ObserverError>)
    ensures r.Failure? <==> o == null || o !in observers
    ensures r.Failure? ==> r.error == (if o == null then NullObserver else IllegalObserver)
    ensures r.Success? ==> o !in r.value && r.value + {o} == observers
  {
    if o == null then Failure(NullObserver)
    else if o !in observers then Failure(IllegalObserver)
    else Success(set x | x in observers && x != o)
  }

  /** Registering a new observer and then unregistering it gives back the original set. */
  lemma RegisterUnregisterRestores(observers: set<Observer>, o: Observer)
    requires o !in observers
    ensures Registered(observers, o).Success?
    ensures Unregistered(Registered(observers, o).value, o) == Success(observers)
  {
    var added := Registered(observers, o).value;
    var removed := Unregistered(added, o).value;
    assert removed == observers;
  }

  /** Unregistering a present observer and registering it again gives back the original set. */
  lemma UnregisterRegisterRestores(observers: set<Observer>, o: Observer)
    requires o in observers
    ensures Unregistered(observers, o).Success?
    ensures Registered(Unregistered(observers, o).value, o) == Success(observers)
  {
    var removed := Unregistered(observers, o).value;
    assert Registered(removed, o).value == observers;
  }

  class MyModel {
    /** The current game state. */
    var state: Board
    /** The registered observers. */
    var observerSet: set<Observer>
    /** `advance` of the game states this model goes through. */
    const advance: Advance

    /** The state keeps the `Board` promises and `advance` keeps its own. */
    ghost predicate Valid()
      reads this
    {
      AdvanceContract(advance) && BoardContract(state)
    }

    /**
     * The model over the initial game state (which the game-state factory builds) with no
     * observer.
     */
    constructor (initial: Board, advance: Advance)
      ensures state == initial && observerSet == {} && this.advance == advance
      ensures AdvanceContract(advance) && BoardContract(initial) ==> Valid()
    {
      state := initial;
      observerSet := {};
      this.advance := advance;
    }

    /** `getCurrentBoard()`. */
    function GetCurrentBoard(): (b: Board)
      reads this
      requires Valid()
      ensures BoardContract(b)
    {
      state
    }

    /** `getObservers()`: the observers registered and not since unregistered. */
    function GetObservers(): (r: set<Observer>)
      reads this
      ensures r == observerSet
    {
      observerSet
    }

    /** `registerObserver(o)`. */
    method RegisterObserver(o: Observer?) returns (r: Outcome<ObserverError>)
      modifies this
      ensures Registered(old(observerSet), o).Failure? ==>
                r == Fail(Registered(old(observerSet), o).error) && observerSet == old(observerSet)
      ensures Registered(old(observerSet), o).Success? ==>
                r == Pass && observerSet == Registered(old(observerSet), o).value
      ensures state == old(state)
    {
      if o in observerSet {
        return Fail(IllegalObserver);
      }
      if o == null {
        return Fail(NullObserver);
      }
      observerSet := observerSet + {o};
      return Pass;
    }

    /** `unregisterObserver(o)`. */
    method UnregisterObserver(o: Observer?) returns (r: Outcome<ObserverError>)
      modifies this
      ensures Unregistered(old(observerSet), o).Failure? ==>
                r == Fail(Unregistered(old(observerSet), o).error) && observerSet == old(observerSet)
      ensures Unregistered(old(observerSet), o).Success? ==>
                r == Pass && observerSet == Unregistered(old(observerSet), o).value
      ensures state == old(state)
    {
      if o == null {
        return Fail(NullObserver);
      }
      if o !in observerSet {
        return Fail(IllegalObserver);
      }
      observerSet := set x | x in observerSet && x != o;
      return Pass;
    }

    /**
     * `chooseMove(move)`: the state becomes `advance(move)` of the old one before anyone is
     * told; when `advance` refuses the move nothing changes and no observer is told. Otherwise
     * every registered observer is told exactly once, with the new board and `GAME_OVER` when
     * it has a winner, `MOVE_MADE` when not. The observer set is not changed.
     */
    method ChooseMove(move: Move) returns (r: Outcome<MoveError>)
      modifies this, observerSet
      ensures observerSet == old(observerSet)
      ensures advance(old(state), move).Failure? ==>
                && r == Fail(advance(old(state), move).error)
                && state == old(state)
                && forall o :: o in observerSet ==> o.received == old(o.received)
      ensures advance(old(state), move).Success? ==>
                && r == Pass
                && state == advance(old(state), move).value
                && forall o :: o in observerSet ==> o.received == old(o.received) + [(state, EventFor(state))]
      ensures old(Valid()) ==> Valid() && (r.Fail? <==> move !in old(state).availableMoves)
    {
      var next := advance(state, move);
      if next.Failure? {
        return Fail(next.error);
      }
      state := next.value;
      var remaining := observerSet;
      while remaining != {}
        invariant remaining <= observerSet
        invariant state == next.value && observerSet == old(observerSet)
        invariant forall o :: o in remaining ==> o.received == old(o.received)
        invariant forall o :: o in observerSet && o !in remaining ==>
                    o.received == old(o.received) + [(state, EventFor(state))]
        decreases remaining
      {
        var o :| o in remaining;
        if state.winner == {} {
          o.OnModelChanged(state, MoveMade);
        } else {
          o.OnModelChanged(state, GameOver);
        }
        remaining := remaining - {o};
      }
      return Pass;
    }
  }
}
