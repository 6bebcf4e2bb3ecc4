/**
 The browser's session store.  Requests are started and answered asynchronously, in
 any order, and each answer comes as one event; only the request started last may
 change the store when it is answered (packages/auth/src/auth-store.svelte.ts:22-180).
 */
module AuthStore {
  import opened Wrappers

  type Session = nat

  datatype Failure = Unauthenticated | Other(code: nat)

  datatype Status = Loading | Authenticated | Anonymous | Failed

  datatype Kind = Load(initializing: bool) | Update | LoggingOut

  datatype Answer = Granted(session: Session) | Refused(failure: Failure) | LoggedOut

  /** What the views read. */
  datatype Visible = Visible(current: Option<Session>, status: Status, error: Option<Failure>)

  /**
   `request` numbers the latest request, `initialization` is the load that
   `initialize` waits for, `inFlight` are the requests not answered yet.
   */
  datatype State = State(
    shown: Visible, request: nat, initialization: Option<nat>, inFlight: map<nat, Kind>)

  datatype Event =
    | Initialize
    | Refresh
    | StartUpdate
    | StartLogout
    | Invalidate
    | Finish(request: nat, answer: Answer)
    | Settle

  const INITIAL: State := State(Visible(None, Loading, None), 0, None, map[])

  // ----- transitions

  predicate Suits(kind: Kind, answer: Answer) {
    if kind.LoggingOut? then !answer.Granted? else !answer.LoggedOut?
  }

  predicate Enabled(s: State, event: Event) {
    match event
    case Finish(request, answer) => request in s.inFlight && Suits(s.inFlight[request], answer)
    case Settle => s.initialization.Some? && s.initialization.value !in s.inFlight
    case _ => true
  }

  function Started(s: State, kind: Kind): State {
    s.(shown := s.shown.(error := None, status := if kind.Load? then Loading else s.shown.status),
       request := s.request + 1,
       inFlight := s.inFlight[s.request + 1 := kind])
  }

  function Invalidated(s: State): State {
    s.(shown := Visible(None, Anonymous, None), request := s.request + 1)
  }

  /** What the latest request leaves: a new session, no session, or an error next to the session there was. */
  function Verdict(shown: Visible, answer: Answer): Visible {
    match answer
    case Granted(session) => Visible(Some(session), Authenticated, None)
    case LoggedOut => Visible(None, Anonymous, None)
    case Refused(Unauthenticated) => Visible(None, Anonymous, None)
    case Refused(failure) => Visible(shown.current, Failed, Some(failure))
  }

  function Next(s: State, event: Event): State
    requires Enabled(s, event)
  {
    match event
    case Initialize =>
      if s.shown.status != Loading || s.initialization.Some? then s
      else Started(s, Load(true)).(initialization := Some(s.request + 1))
    case Refresh => if s.initialization.Some? then s else Started(s, Load(false))
    case StartUpdate => Started(s, Update)
    case StartLogout => Started(s, LoggingOut)
    case Invalidate => Invalidated(s)
    case Finish(request, answer) =>
      var answered := s.(inFlight := s.inFlight - {request});
      if request != s.request then answered
      else answered.(shown := Verdict(s.shown, answer),
                         request := if answer.LoggedOut? then s.request + 1 else s.request)
    case Settle => s.(initialization := None)
  }

  function LogoutAnswered(number: nat, failure: Option<Failure>): Event {
    Finish(number, if failure.Some? then Refused(failure.value) else LoggedOut)
  }

  // ----- invariant

  predicate ShownFits(shown: Visible) {
    && (shown.status == Authenticated ==> shown.current.Some? && shown.error.None?)
    && (shown.status == Anonymous ==> shown.current.None? && shown.error.None?)
    && (shown.error.Some? ==> shown.status == Failed)
  }

  predicate Inv(s: State) {
    && ShownFits(s.shown)
    && (forall r :: r in s.inFlight ==> 0 < r <= s.request)
    && (s.shown.status == Loading ==> s.request == 0 || s.request in s.inFlight)
    && (forall r :: r in s.inFlight && s.inFlight[r] == Load(true) ==> s.initialization == Some(r))
    && (s.initialization.Some? ==> 0 < s.initialization.value <= s.request)
    && (s.initialization.Some? && s.initialization.value in s.inFlight ==>
        s.inFlight[s.initialization.value] == Load(true))
  }

  lemma NextKeepsInv(s: State, event: Event)
    requires Inv(s) && Enabled(s, event)
    ensures Inv(Next(s, event)) && s.request <= Next(s, event).request
  {
  }

  // ----- runs

  ghost predicate Run(states: seq<State>, events: seq<Event>) {
    && |states| == |events| + 1
    && states[0] == INITIAL
    && forall k :: 0 <= k < |events| ==> StepAt(states, events, k)
  }

  predicate StepAt(states: seq<State>, events: seq<Event>, k: nat)
    requires k < |events| && k + 1 < |states|
  {
    Enabled(states[k], events[k]) && states[k + 1] == Next(states[k], events[k])
  }

  lemma {:induction false} RunKeepsInv(states: seq<State>, events: seq<Event>, k: nat)
    requires Run(states, events) && k < |states|
    ensures Inv(states[k])
  {
    if k > 0 {
      RunKeepsInv(states, events, k - 1);
      assert StepAt(states, events, k - 1);
      NextKeepsInv(states[k - 1], events[k - 1]);
    }
  }

  lemma {:induction false} RequestsGrow(states: seq<State>, events: seq<Event>, i: nat, j: nat)
    requires Run(states, events) && i <= j < |states|
    ensures states[i].request <= states[j].request
  {
    if i < j {
      RequestsGrow(states, events, i, j - 1);
      RunKeepsInv(states, events, j - 1);
      assert StepAt(states, events, j - 1);
      NextKeepsInv(states[j - 1], events[j - 1]);
    }
  }

  predicate InitialLoad(s: State, request: nat) {
    request in s.inFlight && s.inFlight[request] == Load(true)
  }

  /** What holds between any two events: the status says what is there, and one initialization at most is on its way. */
  lemma StatusTellsTheTruth(states: seq<State>, events: seq<Event>, k: nat)
    requires Run(states, events) && k < |states|
    ensures states[k].shown.status == Authenticated ==> states[k].shown.current.Some? && states[k].shown.error.None?
    ensures states[k].shown.status == Anonymous ==> states[k].shown.current.None? && states[k].shown.error.None?
    ensures forall a, b :: InitialLoad(states[k], a) && InitialLoad(states[k], b) ==> a == b
  {
    RunKeepsInv(states, events, k);
  }

  /** Once a request was started and the latest one is answered, the store is not loading any more. */
  lemma LoadingEnds(states: seq<State>, events: seq<Event>, k: nat)
    requires Run(states, events) && k < |states|
    requires states[k].request > 0 && states[k].request !in states[k].inFlight
    ensures states[k].shown.status != Loading
  {
    RunKeepsInv(states, events, k);
  }

  /** A request superseded by a later one, or by an invalidation, never shows, however late it is answered. */
  lemma SupersededNeverShows(states: seq<State>, events: seq<Event>, i: nat, j: nat)
    requires Run(states, events) && i <= j < |events|
    requires events[j].Finish? && events[j].request < states[i].request
    ensures states[j + 1].shown == states[j].shown && states[j + 1].request == states[j].request
  {
    RequestsGrow(states, events, i, j);
    assert StepAt(states, events, j);
  }

  /** While no request is started, a store whose latest request is answered does not change. */
  lemma {:induction false} SettledStaysSettled(states: seq<State>, events: seq<Event>, i: nat, j: nat)
    requires Run(states, events) && i <= j < |states|
    requires states[i].request == states[j].request && states[i].request !in states[i].inFlight
    ensures states[j].shown == states[i].shown && states[j].request !in states[j].inFlight
  {
    if i < j {
      RequestsGrow(states, events, i, j - 1);
      RequestsGrow(states, events, j - 1, j);
      SettledStaysSettled(states, events, i, j - 1);
      RunKeepsInv(states, events, j - 1);
      assert StepAt(states, events, j - 1);
    }
  }

  /**
   While the initialization is on its way neither it nor a refresh starts a load;
   once it has settled a refresh starts one, and `initialize` only where none was answered.
   */
  lemma OneLoadAtATime(states: seq<State>, events: seq<Event>, k: nat)
    requires Run(states, events) && k < |events|
    ensures events[k].Settle? ==> states[k + 1].initialization == None && states[k + 1].shown == states[k].shown
    ensures events[k].Initialize? || events[k].Refresh? ==>
              if states[k].initialization.Some? || (events[k].Initialize? && states[k].shown.status != Loading)
              then states[k + 1] == states[k]
              else states[k + 1].request == states[k].request + 1
                   && states[k + 1].request in states[k + 1].inFlight && states[k + 1].shown.status == Loading
  {
    assert StepAt(states, events, k);
  }

  /**
   The answer of the latest request stands until another request is started or the
   store is invalidated: its session, no session, or its error next to the session
   there was.
   */
  lemma LatestAnswerStands(states: seq<State>, events: seq<Event>, i: nat, j: nat)
    requires Run(states, events) && i < j < |states|
    requires events[i].Finish? && events[i].request == states[i].request
    requires states[j].request == states[i + 1].request
    ensures states[j].shown == match events[i].answer
                               case Granted(session) => Visible(Some(session), Authenticated, None)
                               case LoggedOut => Visible(None, Anonymous, None)
                               case Refused(Unauthenticated) => Visible(None, Anonymous, None)
                               case Refused(failure) => Visible(states[i].shown.current, Failed, Some(failure))
    ensures states[j].shown.status == Authenticated <==> events[i].answer.Granted?
    ensures states[j].shown.status == Failed <==>
              events[i].answer.Refused? && events[i].answer.failure != Unauthenticated
  {
    RunKeepsInv(states, events, i);
    assert StepAt(states, events, i);
    SettledStaysSettled(states, events, i + 1, j);
  }

  // ----- the store

  class Store {
    var current: Option<Session>
    var status: Status
    var error: Option<Failure>
    var request: nat
    var initialization: Option<nat>
    ghost var inFlight: map<nat, Kind>

    ghost function Abstract(): State
      reads this
    {
      State(Visible(current, status, error), request, initialization, inFlight)
    }

    constructor ()
      ensures Abstract() == INITIAL
    {
      current, status, error := None, Loading, None;
      request, initialization, inFlight := 0, None, map[];
    }

    /** Joins the load that is on its way, or starts one while the session is not known. */
    method Initialize() returns (started: Option<nat>)
      modifies this
      ensures started.Some? ==> started.value == request == old(request) + 1 && initialization == started
      ensures started.Some? ==> status == Loading && error == None && current == old(current)
      ensures started.Some? ==> inFlight == old(inFlight)[request := Load(true)]
      ensures started.None? ==> Abstract() == old(Abstract())
      ensures Abstract() == Next(old(Abstract()), Event.Initialize)
      ensures started.Some? <==> old(status) == Loading && old(initialization).None?
    {
      if status != Loading {
        return None;
      }
      if initialization.Some? {
        return None;
      }
      var number := BeginLoad(true);
      initialization := Some(number);
      return Some(number);
    }

    method Refresh() returns (started: Option<nat>)
      modifies this
      ensures started.Some? ==> started.value == request == old(request) + 1 && initialization == old(initialization)
      ensures started.Some? ==> status == Loading && error == None && current == old(current)
      ensures started.Some? ==> inFlight == old(inFlight)[request := Load(false)]
      ensures started.None? ==> Abstract() == old(Abstract())
      ensures Abstract() == Next(old(Abstract()), Event.Refresh)
      ensures started.Some? <==> old(initialization).None?
    {
      if initialization.Some? {
        return None;
      }
      var number := BeginLoad(false);
      return Some(number);
    }

    method BeginLoad(ghost initializing: bool) returns (number: nat)
      modifies this
      ensures Abstract() == Started(old(Abstract()), Load(initializing)) && number == request
    {
      request := request + 1;
      number := request;
      error := None;
      status := Loading;
      inFlight := inFlight[number := Load(initializing)];
    }

    method BeginUpdate() returns (number: nat)
      modifies this
      ensures request == old(request) + 1 && inFlight == old(inFlight)[request := Update]
      ensures error == None && status == old(status) && current == old(current) && initialization == old(initialization)
      ensures Abstract() == Next(old(Abstract()), StartUpdate) && number == request
    {
      request := request + 1;
      number := request;
      error := None;
      inFlight := inFlight[number := Update];
    }

    method BeginLogout() returns (number: nat)
      modifies this
      ensures request == old(request) + 1 && inFlight == old(inFlight)[request := LoggingOut]
      ensures error == None && status == old(status) && current == old(current) && initialization == old(initialization)
      ensures Abstract() == Next(old(Abstract()), StartLogout) && number == request
    {
      request := request + 1;
      number := request;
      error := None;
      inFlight := inFlight[number := LoggingOut];
    }

    method Invalidate()
      modifies this
      ensures current == None && status == Anonymous && error == None && request == old(request) + 1
      ensures initialization == old(initialization) && inFlight == old(inFlight)
      ensures Abstract() == Next(old(Abstract()), Event.Invalidate)
    {
      request := request + 1;
      current := None;
      error := None;
      status := Anonymous;
    }

    /** The service has answered a load or an update. */
    method FinishSession(number: nat, answer: Answer)
      requires Enabled(Abstract(), Finish(number, answer)) && !answer.LoggedOut?
      modifies this
      ensures inFlight == old(inFlight) - {number} && initialization == old(initialization)
      ensures request == old(request)
      ensures Visible(current, status, error) ==
                if number != request then old(Visible(current, status, error))
                else if answer.Granted? then Visible(Some(answer.session), Authenticated, None)
                else if answer.failure == Unauthenticated then Visible(None, Anonymous, None)
                else Visible(old(current), Failed, Some(answer.failure))
      ensures Abstract() == Next(old(Abstract()), Finish(number, answer))
    {
      inFlight := inFlight - {number};
      match answer {
        case Granted(session) => Accept(number, session);
        case Refused(failure) => Reject(number, failure);
        case LoggedOut => assert false;
      }
    }

    method FinishLogout(number: nat, failure: Option<Failure>)
      requires Enabled(Abstract(), LogoutAnswered(number, failure))
      modifies this
      ensures inFlight == old(inFlight) - {number} && initialization == old(initialization)
      ensures request == if number == old(request) && failure.None? then old(request) + 1 else old(request)
      ensures Visible(current, status, error) ==
                if number != old(request) then old(Visible(current, status, error))
                else if failure == None || failure == Some(Unauthenticated) then Visible(None, Anonymous, None)
                else Visible(old(current), Failed, failure)
      ensures Abstract() == Next(old(Abstract()), LogoutAnswered(number, failure))
    {
      inFlight := inFlight - {number};
      if failure.Some? {
        Reject(number, failure.value);
      } else if number == request {
        Invalidate();
      }
    }

    method Accept(number: nat, session: Session)
      modifies this`current, this`status, this`error
      ensures Visible(current, status, error) ==
                if number == request then Verdict(old(Visible(current, status, error)), Granted(session))
                    else old(Visible(current, status, error))
    {
      if number != request {
        return;
      }
      current := Some(session);
      error := None;
      status := Authenticated;
    }

    method Reject(number: nat, failure: Failure)
      modifies this`current, this`status, this`error
      ensures Visible(current, status, error) ==
                if number == request then Verdict(old(Visible(current, status, error)), Refused(failure))
                    else old(Visible(current, status, error))
    {
      if number != request {
        return;
      }
      if failure == Unauthenticated {
        current := None;
        error := None;
        status := Anonymous;
        return;
      }
      error := Some(failure);
      status := Failed;
    }

    /** The promise of the initialization is settled. */
    method SettleInitialization()
      requires Enabled(Abstract(), Settle)
      modifies this`initialization
      ensures Abstract() == Next(old(Abstract()), Settle)
      ensures initialization == None
    {
      initialization := None;
    }
  }
}
