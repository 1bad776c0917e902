/** The EventEmitter: how listeners are stored, and what nested calls from handlers do to them
    (crates/runtime/src/builtin/events.js:197-208, 277-346, 351-403, 427-476 and 551-570).
    A program is a tree: each call of a listener is answered by a response, which may itself call the
    emitter, and may catch the exceptions of the calls it guards. */
module Events {
  import opened Options

  /** A listener: a function of the user, or the wrapper `once` makes of one. */
  datatype Fn = Plain(id: nat) | Wrapper(serial: nat, event: string, callback: nat)

  datatype Op =
    | Add(event: string, callback: nat, prepend: bool, responses: seq<Response>)
    | AddOnce(event: string, callback: nat, prepend: bool, responses: seq<Response>)
    | Remove(event: string, listener: Fn, responses: seq<Response>)
    | Emit(event: string, responses: seq<Response>)
    | Guard(body: seq<Op>)

  /** What a called listener does: `onRemove` answers the handlers called when a once wrapper removes
      itself first; the body is what the callback calls; it may end in an exception. A listener for
      which no response is given throws at once. */
  datatype Response = Response(onRemove: seq<Response>, body: seq<Op>, throws: bool)

  // ---------------------------------------------------------------------------------------
  // The specification: a map from event names to non-empty lists of listeners
  // ---------------------------------------------------------------------------------------

  /** `fired` holds the wrappers that have fired, `ran` the callbacks run so far. */
  datatype State = State(lists: map<string, seq<Fn>>, fired: set<Fn>, ran: seq<Fn>, next: nat, thrown: bool)

  const EMPTY := State(map[], {}, [], 0, false)

  predicate Matches(x: Fn, f: Fn) {
    x == f || (x.Wrapper? && Plain(x.callback) == f)
  }

  /** The last matching position, or -1. */
  function LastMatch(list: seq<Fn>, f: Fn): (p: int)
    ensures -1 <= p < |list| && (p >= 0 ==> Matches(list[p], f))
    ensures forall i :: p < i < |list| ==> !Matches(list[i], f)
  {
    if list == [] then -1
    else if Matches(list[|list| - 1], f) then |list| - 1
    else LastMatch(list[..|list| - 1], f)
  }

  function Listed(lists: map<string, seq<Fn>>, event: string): seq<Fn> {
    if event in lists then lists[event] else []
  }

  function Store(lists: map<string, seq<Fn>>, event: string, list: seq<Fn>): map<string, seq<Fn>> {
    if list == [] then lists - {event} else lists[event := list]
  }

  /** The list without its last matching listener. */
  function Take(st: State, event: string, f: Fn): State {
    var list := Listed(st.lists, event);
    var p := LastMatch(list, f);
    if p < 0 then st else st.(lists := Store(st.lists, event, list[..p] + list[p + 1..]))
  }

  function AbsRemove(st: State, event: string, f: Fn, responses: seq<Response>): State
    decreases responses, 2
  {
    var st1 := Take(st, event, f);
    if LastMatch(Listed(st.lists, event), f) >= 0 && "removeListener" in st1.lists
    then AbsEmit(st1, "removeListener", responses) else st1
  }

  function AbsAdd(st: State, event: string, f: Fn, prepend: bool, responses: seq<Response>): State
    decreases responses, 2
  {
    var st1 := if "newListener" in st.lists then AbsEmit(st, "newListener", responses) else st;
    if st1.thrown then st1 else
    var list := Listed(st1.lists, event);
    st1.(lists := st1.lists[event := if prepend then [f] + list else list + [f]])
  }

  /** The listeners registered when the emission starts are called in order. */
  function AbsEmit(st: State, event: string, responses: seq<Response>): State
    decreases responses, 1
  {
    AbsCalls(st, Listed(st.lists, event), responses)
  }

  function AbsCalls(st: State, list: seq<Fn>, responses: seq<Response>): State
    decreases responses, 0
  {
    if list == [] || st.thrown then st
    else if responses == [] then st.(thrown := true)
    else AbsCalls(AbsInvoke(st, list[0], responses[0]), list[1..], responses[1..])
  }

  /** A wrapper that has not fired removes itself and runs its callback. */
  function AbsInvoke(st: State, f: Fn, r: Response): State
    decreases r, 1
  {
    match f
    case Plain(_) => AbsBody(st, f, r)
    case Wrapper(_, event, _) =>
      if f in st.fired then st else
      var st1 := AbsRemove(st.(fired := st.fired + {f}), event, f, r.onRemove);
      if st1.thrown then st1 else AbsBody(st1, f, r)
  }

  function AbsBody(st: State, f: Fn, r: Response): State
    decreases r, 0
  {
    var st1 := AbsOps(st.(ran := st.ran + [f]), r.body);
    if r.throws then st1.(thrown := true) else st1
  }

  function AbsOps(st: State, ops: seq<Op>): State
    decreases ops
  {
    if ops == [] || st.thrown then st else AbsOps(AbsOp(st, ops[0]), ops[1..])
  }

  function AbsOp(st: State, op: Op): State
    decreases op
  {
    match op
    case Add(event, callback, prepend, responses) => AbsAdd(st, event, Plain(callback), prepend, responses)
    case AddOnce(event, callback, prepend, responses) =>
      AbsAdd(st.(next := st.next + 1), event, Wrapper(st.next, event, callback), prepend, responses)
    case Remove(event, listener, responses) => AbsRemove(st, event, listener, responses)
    case Emit(event, responses) => AbsEmit(st, event, responses)
    case Guard(body) => AbsOps(st, body).(thrown := false)
  }

  /** A program catches the exceptions of its own calls. */
  function AbsRun(st: State, program: seq<Op>): State
    decreases program
  {
    if program == [] then st else AbsRun(AbsOp(st.(thrown := false), program[0]), program[1..])
  }

  // ---------------------------------------------------------------------------------------
  // What every run keeps
  // ---------------------------------------------------------------------------------------

  /** No list is empty, a wrapper is registered at most once, for its own event, and not after it has
      fired; a wrapper's callback has run at most once, and only if the wrapper fired. */
  ghost predicate Sane(st: State) {
    && (forall t :: t in st.lists ==> st.lists[t] != [] && ListSane(st, t, st.lists[t]))
    && (forall i :: 0 <= i < |st.ran| && st.ran[i].Wrapper? ==> st.ran[i] in st.fired)
    && (forall i, j :: 0 <= i < j < |st.ran| && st.ran[i].Wrapper? ==> st.ran[i] != st.ran[j])
    && (forall w :: w in st.fired ==> w.Wrapper? && w.serial < st.next)
  }

  ghost predicate ListSane(st: State, t: string, list: seq<Fn>) {
    && Known(st, t, list)
    && (forall i :: 0 <= i < |list| && list[i].Wrapper? ==> list[i] !in st.fired)
    && (forall i, j :: 0 <= i < j < |list| && list[i].Wrapper? ==> list[i] != list[j])
  }

  ghost predicate Known(st: State, t: string, list: seq<Fn>) {
    forall i :: 0 <= i < |list| && list[i].Wrapper? ==> list[i].event == t && list[i].serial < st.next
  }

  /** An existing wrapper that is neither registered nor fired. */
  predicate Loose(st: State, w: Fn) {
    w.Wrapper? && w.serial < st.next && w !in st.fired && w !in Listed(st.lists, w.event)
  }

  /** Wrappers only fire once and never come back: what has fired stays fired, what runs anew had not
      fired, and a loose wrapper outside `list` stays loose. */
  ghost predicate Keeps(a: State, b: State, list: seq<Fn>) {
    && a.next <= b.next && a.fired <= b.fired
    && (forall w: Fn :: w.Wrapper? && w in b.ran && w in a.fired ==> w in a.ran)
    && (forall w: Fn :: Loose(a, w) && w !in list ==> Loose(b, w))
  }

  lemma KeepsTrans(a: State, b: State, c: State, x: seq<Fn>, y: seq<Fn>, z: seq<Fn>)
    requires Keeps(a, b, x) && Keeps(b, c, y) && (forall w :: w in x || w in y ==> w in z)
    ensures Keeps(a, c, z)
  {
  }

  lemma AddSane(st: State, event: string, f: Fn, prepend: bool)
    requires Sane(st) && (f.Wrapper? ==> f.event == event && Loose(st, f))
    ensures var list := Listed(st.lists, event);
            Sane(st.(lists := st.lists[event := if prepend then [f] + list else list + [f]]))
  {
  }

  lemma TakeSane(st: State, event: string, f: Fn)
    requires Sane(st)
    ensures Sane(Take(st, event, f)) && Keeps(st, Take(st, event, f), [])
  {
  }

  lemma TakeGone(st: State, f: Fn)
    requires Sane(st) && f.Wrapper?
    ensures f !in Listed(Take(st, f.event, f).lists, f.event)
  {
    var list := Listed(st.lists, f.event);
    var p := LastMatch(list, f);
    assert f.event in st.lists ==> ListSane(st, f.event, list);
    if p >= 0 {
      var left := list[..p] + list[p + 1..];
      assert Listed(Take(st, f.event, f).lists, f.event) == left;
    }
  }

  lemma MarkSane(st: State, f: Fn)
    requires Sane(st) && f.Wrapper? && f.serial < st.next && f !in Listed(st.lists, f.event)
    ensures Sane(st.(fired := st.fired + {f}))
    ensures f !in st.fired ==> Keeps(st, st.(fired := st.fired + {f}), [f]) && f !in st.ran
  {
    var marked := st.(fired := st.fired + {f});
    forall t | t in st.lists ensures ListSane(marked, t, st.lists[t]) {
      assert ListSane(st, t, st.lists[t]);
    }
  }

  /** A wrapper fires: it is marked and removed in one step. */
  lemma FireSane(st: State, f: Fn)
    requires Sane(st) && f.Wrapper? && f.serial < st.next && f !in st.fired
    ensures var st1 := Take(st.(fired := st.fired + {f}), f.event, f);
            Sane(st1) && Keeps(st, st1, [f]) && f in st1.fired && f !in st1.ran
  {
    hide Sane, Keeps, LastMatch, Store;
    var st1 := Take(st, f.event, f);
    TakeSane(st, f.event, f);
    TakeGone(st, f);
    MarkSane(st1, f);
    KeepsTrans(st, st1, st1.(fired := st.fired + {f}), [], [f], [f]);
  }

  lemma RunsCallback(st: State, f: Fn)
    requires Sane(st) && (f.Wrapper? ==> f in st.fired && f !in st.ran)
    ensures Sane(st.(ran := st.ran + [f]))
    ensures f.Plain? ==> Keeps(st, st.(ran := st.ran + [f]), [])
  {
  }

  lemma Thrown(st: State, b: bool)
    requires Sane(st)
    ensures Sane(st.(thrown := b)) && Keeps(st, st.(thrown := b), [])
  {
  }

  lemma KeepsSelf(st: State, list: seq<Fn>)
    ensures Keeps(st, st, list)
  {
  }

  /** The wrappers an emission calls are registered, so none of them is loose. */
  lemma Registered(st: State, b: State, event: string)
    requires Sane(st)
    ensures Known(st, event, Listed(st.lists, event))
    ensures Keeps(st, b, Listed(st.lists, event)) ==> Keeps(st, b, [])
  {
    assert event in st.lists ==> ListSane(st, event, st.lists[event]);
  }

  lemma StillKnown(a: State, b: State, event: string, list: seq<Fn>, x: seq<Fn>)
    requires Known(a, event, list) && list != [] && Keeps(a, b, x)
    ensures Known(b, event, list[1..])
  {
  }

  lemma FiredRuns(a: State, b: State, f: Fn)
    requires Keeps(a, b, [f]) && f !in a.fired
    ensures Keeps(a, b.(ran := b.ran + [f]), [f])
  {
  }

  lemma StaysFired(a: State, b: State, f: Fn)
    requires Keeps(a, b, []) && f.Wrapper? && f in a.fired && f !in a.ran
    ensures f in b.fired && f !in b.ran
  {
  }

  lemma NewWrapper(st: State, event: string, callback: nat)
    requires Sane(st)
    ensures var f, st1 := Wrapper(st.next, event, callback), st.(next := st.next + 1);
            Sane(st1) && Loose(st1, f) && forall b :: Keeps(st1, b, [f]) ==> Keeps(st, b, [])
  {
    assert event in st.lists ==> ListSane(st, event, st.lists[event]);
  }

  lemma AddKeepsRest(st: State, event: string, f: Fn, prepend: bool)
    requires Sane(st) && (f.Wrapper? ==> f.event == event && Loose(st, f))
    ensures var list := Listed(st.lists, event);
            Keeps(st, st.(lists := st.lists[event := if prepend then [f] + list else list + [f]]), [f])
  {
  }

  lemma {:induction false} NotifyKeeps(st: State, event: string, responses: seq<Response>)
    requires Sane(st)
    ensures var r := if event in st.lists then AbsEmit(st, event, responses) else st;
            Sane(r) && Keeps(st, r, [])
    decreases responses, 1
  {
    hide Sane, Keeps, Known;
    KeepsSelf(st, []);
    Registered(st, AbsEmit(st, event, responses), event);
    CallsKeep(st, event, Listed(st.lists, event), responses);
  }

  lemma {:induction false} RemoveKeeps(st: State, event: string, f: Fn, responses: seq<Response>)
    requires Sane(st)
    ensures Sane(AbsRemove(st, event, f, responses)) && Keeps(st, AbsRemove(st, event, f, responses), [])
    decreases responses, 2
  {
    hide Sane, Keeps, Take;
    var st1 := Take(st, event, f);
    TakeSane(st, event, f);
    NotifyKeeps(st1, "removeListener", responses);
    KeepsTrans(st, st1, AbsRemove(st, event, f, responses), [], [], []);
  }

  lemma {:induction false} AddKeeps(st: State, event: string, f: Fn, prepend: bool, responses: seq<Response>)
    requires Sane(st) && (f.Wrapper? ==> f.event == event && Loose(st, f))
    ensures Sane(AbsAdd(st, event, f, prepend, responses)) && Keeps(st, AbsAdd(st, event, f, prepend, responses), [f])
    decreases responses, 2
  {
    hide Sane, Keeps, Loose;
    NotifyKeeps(st, "newListener", responses);
    var st1 := if "newListener" in st.lists then AbsEmit(st, "newListener", responses) else st;
    StaysLoose(st, st1, f);
    AddSane(st1, event, f, prepend);
    AddKeepsRest(st1, event, f, prepend);
    KeepsSelf(st1, [f]);
    KeepsTrans(st, st1, AbsAdd(st, event, f, prepend, responses), [], [f], [f]);
  }

  lemma StaysLoose(a: State, b: State, f: Fn)
    requires Keeps(a, b, [])
    ensures Loose(a, f) ==> Loose(b, f)
  {
  }

  lemma {:induction false} CallsKeep(st: State, event: string, list: seq<Fn>, responses: seq<Response>)
    requires Sane(st) && Known(st, event, list)
    ensures Sane(AbsCalls(st, list, responses)) && Keeps(st, AbsCalls(st, list, responses), list)
    decreases responses, 0
  {
    hide Sane, Keeps, AbsInvoke;
    if list == [] || st.thrown {
      KeepsSelf(st, list);
    } else if responses == [] {
      Thrown(st, true);
      KeepsSelf(st, []);
      KeepsTrans(st, st, st.(thrown := true), [], [], list);
    } else {
      var st1 := AbsInvoke(st, list[0], responses[0]);
      InvokeKeeps(st, list[0], responses[0]);
      StillKnown(st, st1, event, list, [list[0]]);
      CallsKeep(st1, event, list[1..], responses[1..]);
      KeepsTrans(st, st1, AbsCalls(st, list, responses), [list[0]], list[1..], list);
    }
  }

  lemma {:induction false} InvokeKeeps(st: State, f: Fn, r: Response)
    requires Sane(st) && (f.Wrapper? ==> f.serial < st.next)
    ensures Sane(AbsInvoke(st, f, r)) && Keeps(st, AbsInvoke(st, f, r), [f])
    decreases r, 1
  {
    hide Sane, Keeps, Take, AbsBody;
    if f.Plain? {
      BodyKeeps(st, f, r);
      RunsCallback(st, f);
      KeepsTrans(st, st.(ran := st.ran + [f]), AbsBody(st, f, r), [], [], [f]);
    } else if f in st.fired {
      KeepsSelf(st, [f]);
    } else {
      var marked := st.(fired := st.fired + {f});
      var st1 := Take(marked, f.event, f);
      FireSane(st, f);
      NotifyKeeps(st1, "removeListener", r.onRemove);
      KeepsSelf(st1, []);
      var st2 := AbsRemove(marked, f.event, f, r.onRemove);
      StaysFired(st1, st2, f);
      KeepsTrans(st, st1, st2, [f], [], [f]);
      if !st2.thrown {
        FiredRuns(st, st2, f);
        BodyKeeps(st2, f, r);
        KeepsTrans(st, st2.(ran := st2.ran + [f]), AbsBody(st2, f, r), [f], [], [f]);
      }
    }
  }

  lemma {:induction false} BodyKeeps(st: State, f: Fn, r: Response)
    requires Sane(st) && (f.Wrapper? ==> f in st.fired && f !in st.ran)
    ensures Sane(AbsBody(st, f, r)) && Keeps(st.(ran := st.ran + [f]), AbsBody(st, f, r), [])
    decreases r, 0
  {
    hide Sane, Keeps, AbsOps;
    var st1 := st.(ran := st.ran + [f]);
    RunsCallback(st, f);
    OpsKeep(st1, r.body);
    Thrown(AbsOps(st1, r.body), true);
    KeepsTrans(st1, AbsOps(st1, r.body), AbsOps(st1, r.body).(thrown := true), [], [], []);
  }

  lemma {:induction false} OpsKeep(st: State, ops: seq<Op>)
    requires Sane(st)
    ensures Sane(AbsOps(st, ops)) && Keeps(st, AbsOps(st, ops), [])
    decreases ops
  {
    hide Sane, Keeps, AbsOp;
    if ops == [] || st.thrown {
      KeepsSelf(st, []);
    } else {
      OpKeeps(st, ops[0]);
      OpsKeep(AbsOp(st, ops[0]), ops[1..]);
      KeepsTrans(st, AbsOp(st, ops[0]), AbsOps(st, ops), [], [], []);
    }
  }

  lemma {:induction false} OpKeeps(st: State, op: Op)
    requires Sane(st)
    ensures Sane(AbsOp(st, op)) && Keeps(st, AbsOp(st, op), [])
    decreases op
  {
    hide Sane, Keeps, AbsAdd, AbsRemove, AbsEmit, Loose;
    match op
    case Add(event, callback, prepend, responses) =>
      AddKeeps(st, event, Plain(callback), prepend, responses);
      PlainIsNotLoose(st, AbsAdd(st, event, Plain(callback), prepend, responses), callback);
    case AddOnce(event, callback, prepend, responses) =>
      NewWrapper(st, event, callback);
      AddKeeps(st.(next := st.next + 1), event, Wrapper(st.next, event, callback), prepend, responses);
    case Remove(event, listener, responses) =>
      RemoveKeeps(st, event, listener, responses);
    case Emit(event, responses) =>
      NotifyKeeps(st, event, responses);
      EmitNobody(st, event, responses);
    case Guard(body) =>
      OpsKeep(st, body);
      Thrown(AbsOps(st, body), false);
      KeepsTrans(st, AbsOps(st, body), AbsOp(st, op), [], [], []);
  }

  lemma PlainIsNotLoose(a: State, b: State, id: nat)
    requires Keeps(a, b, [Plain(id)])
    ensures Keeps(a, b, [])
  {
  }

  lemma EmitNobody(st: State, event: string, responses: seq<Response>)
    ensures event !in st.lists ==> AbsEmit(st, event, responses) == st
  {
  }

  /** After every program, whatever its handlers did: no list is empty, every wrapper is registered at
      most once and not after it fired, and no once registration ran its callback twice. */
  lemma {:induction false} EveryRun(st: State, program: seq<Op>)
    requires Sane(st)
    ensures Sane(AbsRun(st, program))
    decreases program
  {
    hide Sane, AbsOp;
    if program != [] {
      Thrown(st, false);
      OpKeeps(st.(thrown := false), program[0]);
      EveryRun(AbsOp(st.(thrown := false), program[0]), program[1..]);
    }
  }

  // ---------------------------------------------------------------------------------------
  // What calls see
  // ---------------------------------------------------------------------------------------

  function Count(list: seq<Fn>, f: Fn): nat {
    if list == [] then 0 else (if Matches(list[0], f) then 1 else 0) + Count(list[1..], f)
  }

  lemma {:induction false} CountConcat(a: seq<Fn>, b: seq<Fn>, f: Fn)
    ensures Count(a + b, f) == Count(a, f) + Count(b, f)
    decreases |a|
  {
    if a == [] {
      assert a + b == b;
    } else {
      CountConcat(a[1..], b, f);
      assert (a + b)[1..] == a[1..] + b;
    }
  }

  lemma CountNone(list: seq<Fn>, f: Fn)
    requires forall i :: 0 <= i < |list| ==> !Matches(list[i], f)
    ensures Count(list, f) == 0
  {
  }

  lemma CountAround(list: seq<Fn>, p: nat, f: Fn)
    requires p < |list| && Matches(list[p], f) && forall i :: p < i < |list| ==> !Matches(list[i], f)
    ensures Count(list[..p] + list[p + 1..], f) == Count(list, f) - 1 && Count(list[p + 1..], f) == 0
  {
    hide Matches;
    CountConcat(list[..p], list[p + 1..], f);
    CountConcat(list[..p], list[p..], f);
    assert list[..p] + list[p..] == list && list[p..][1..] == list[p + 1..];
    CountNone(list[p + 1..], f);
  }

  ghost predicate RemovedAt(list: seq<Fn>, left: seq<Fn>, p: nat, f: Fn) {
    p < |list| && left == list[..p] + list[p + 1..] && Matches(list[p], f) && Count(list[p + 1..], f) == 0
  }

  /** Removal takes away one matching listener, the last, if there is one, and no other. */
  lemma TakeRemovesLast(st: State, event: string, f: Fn)
    ensures var list, left := Listed(st.lists, event), Listed(Take(st, event, f).lists, event);
            if Count(list, f) == 0 then left == list
            else Count(left, f) == Count(list, f) - 1 && exists p :: RemovedAt(list, left, p, f)
    ensures forall other :: other != event ==> Listed(Take(st, event, f).lists, other) == Listed(st.lists, other)
  {
    hide Matches, Count, Store, Listed, LastMatch;
    var list := Listed(st.lists, event);
    var p := LastMatch(list, f);
    if p < 0 {
      CountNone(list, f);
    } else {
      CountAround(list, p, f);
      var left := list[..p] + list[p + 1..];
      StoreListed(st.lists, event, left);
      assert RemovedAt(list, left, p, f);
    }
  }

  predicate Idle(r: Response) {
    r.onRemove == [] && r.body == [] && !r.throws
  }

  function Permanent(list: seq<Fn>): seq<Fn> {
    if list == [] then [] else (if list[0].Plain? then [list[0]] else []) + Permanent(list[1..])
  }

  ghost predicate AllPlain(list: seq<Fn>) {
    forall i :: 0 <= i < |list| ==> list[i].Plain?
  }

  /** An emission whose handlers only return runs every registered listener once, in order, and
      leaves the permanent ones; nothing else changes. */
  lemma IdleEmission(st: State, event: string, responses: seq<Response>)
    requires Sane(st) && !st.thrown && "removeListener" !in st.lists
    requires |Listed(st.lists, event)| <= |responses| && forall i :: 0 <= i < |responses| ==> Idle(responses[i])
    ensures var list, r := Listed(st.lists, event), AbsEmit(st, event, responses);
            && r.ran == st.ran + list && !r.thrown && Listed(r.lists, event) == Permanent(list)
            && forall other :: other != event ==> Listed(r.lists, other) == Listed(st.lists, other)
  {
    hide Sane;
    assert [] + Listed(st.lists, event) == Listed(st.lists, event);
    IdleCalls(st, event, [], Listed(st.lists, event), responses);
  }

  lemma {:induction false} IdleCalls(st: State, event: string, front: seq<Fn>, list: seq<Fn>, responses: seq<Response>)
    requires Sane(st) && !st.thrown && "removeListener" !in st.lists
    requires Listed(st.lists, event) == front + list && AllPlain(front)
    requires |list| <= |responses| && forall i :: 0 <= i < |responses| ==> Idle(responses[i])
    ensures var r := AbsCalls(st, list, responses);
            && r.ran == st.ran + list && !r.thrown && Listed(r.lists, event) == front + Permanent(list)
            && forall other :: other != event ==> Listed(r.lists, other) == Listed(st.lists, other)
    decreases |list|
  {
    hide Sane, AbsInvoke, AbsCalls, Permanent, Listed, Idle;
    if list == [] {
      assert front + [] == front && st.ran + [] == st.ran;
      NobodyCalled(st, responses);
    } else {
      var f, st1 := list[0], AbsInvoke(st, list[0], responses[0]);
      FirstOfRest(st, event, front, list);
      InvokeKeeps(st, f, responses[0]);
      IdleInvoke(st, event, front, list, responses[0]);
      CallsStep(st, list, responses);
      RestAfter(front, list, st.ran);
      IdleCalls(st1, event, if f.Plain? then front + [f] else front, list[1..], responses[1..]);
    }
  }

  lemma NobodyCalled(st: State, responses: seq<Response>)
    ensures AbsCalls(st, [], responses) == st && Permanent([]) == []
  {
  }

  lemma CallsStep(st: State, list: seq<Fn>, responses: seq<Response>)
    requires list != [] && responses != [] && !st.thrown
    ensures AbsCalls(st, list, responses) == AbsCalls(AbsInvoke(st, list[0], responses[0]), list[1..], responses[1..])
  {
  }

  lemma RestAfter(front: seq<Fn>, list: seq<Fn>, ran: seq<Fn>)
    requires list != []
    ensures front + [list[0]] + list[1..] == front + list && ran + [list[0]] + list[1..] == ran + list
    ensures front + Permanent(list) == (if list[0].Plain? then front + [list[0]] else front) + Permanent(list[1..])
  {
    hide Permanent;
    PermanentStep(list);
    var f, rest, t := list[0], list[1..], Permanent(list[1..]);
    assert [f] + rest == list;
    Regroup(front, [f], rest);
    Regroup(ran, [f], rest);
    Regroup(front, [f], t);
    NothingFirst(t);
  }

  lemma Regroup(a: seq<Fn>, b: seq<Fn>, c: seq<Fn>)
    ensures a + (b + c) == a + b + c
  {
  }

  lemma NothingFirst(a: seq<Fn>)
    ensures [] + a == a
  {
  }

  lemma PermanentStep(list: seq<Fn>)
    requires list != []
    ensures Permanent(list) == (if list[0].Plain? then [list[0]] else []) + Permanent(list[1..])
  {
  }

  lemma FirstOfRest(st: State, event: string, front: seq<Fn>, list: seq<Fn>)
    requires Sane(st) && Listed(st.lists, event) == front + list && list != [] && AllPlain(front)
    ensures var f := list[0];
            f.Wrapper? ==> f.event == event && f.serial < st.next && f !in st.fired
                           && LastMatch(front + list, f) == |front|
  {
    var all := front + list;
    assert ListSane(st, event, all) && all[|front|] == list[0];
  }

  lemma IdleInvoke(st: State, event: string, front: seq<Fn>, list: seq<Fn>, r: Response)
    requires !st.thrown && "removeListener" !in st.lists && Listed(st.lists, event) == front + list && list != []
    requires Idle(r)
    requires list[0].Wrapper? ==> list[0].event == event && list[0] !in st.fired
                                  && LastMatch(front + list, list[0]) == |front|
    ensures var f, st1 := list[0], AbsInvoke(st, list[0], r);
            && st1.ran == st.ran + [f] && !st1.thrown && "removeListener" !in st1.lists
            && Listed(st1.lists, event) == (if f.Plain? then front + list else front + list[1..])
            && forall other :: other != event ==> Listed(st1.lists, other) == Listed(st.lists, other)
  {
    hide LastMatch, Store, AbsBody;
    var f, all := list[0], front + list;
    IdleBody(st, f, r);
    if f.Wrapper? {
      var left := front + list[1..];
      assert all[..|front|] + all[|front| + 1..] == left;
      var marked := st.(fired := st.fired + {f});
      StoreListed(st.lists, event, left);
      assert Take(marked, event, f) == marked.(lists := Store(st.lists, event, left));
      IdleBody(Take(marked, event, f), f, r);
    }
  }

  lemma IdleBody(st: State, f: Fn, r: Response)
    requires Idle(r) && !st.thrown
    ensures AbsBody(st, f, r) == st.(ran := st.ran + [f])
  {
  }

  lemma StoreListed(lists: map<string, seq<Fn>>, event: string, list: seq<Fn>)
    ensures Listed(Store(lists, event, list), event) == list
    ensures forall other :: other != event ==> Listed(Store(lists, event, list), other) == Listed(lists, other)
    ensures list == [] || event in lists ==> forall other :: other in Store(lists, event, list) ==> other in lists
  {
  }

  // ---------------------------------------------------------------------------------------
  // Where listeners are put, and when the handlers are told
  // ---------------------------------------------------------------------------------------

  /** The listener an operation registers: a plain one, or a new wrapper. */
  function Made(op: Op, next: nat): Fn
    requires op.Add? || op.AddOnce?
  {
    if op.Add? then Plain(op.callback) else Wrapper(next, op.event, op.callback)
  }

  function NextAfter(op: Op, next: nat): nat {
    if op.AddOnce? then next + 1 else next
  }

  function Placed(list: seq<Fn>, f: Fn, prepend: bool): seq<Fn> {
    if prepend then [f] + list else list + [f]
  }

  /** Without a `newListener` handler adding puts the listener at the end its call says, in front of or
      behind all others, and changes nothing else. */
  lemma AddPlaces(st: State, op: Op)
    requires (op.Add? || op.AddOnce?) && "newListener" !in st.lists && !st.thrown
    ensures var r := AbsOp(st, op);
            && Listed(r.lists, op.event) == (if op.prepend then [Made(op, st.next)] + Listed(st.lists, op.event)
                                             else Listed(st.lists, op.event) + [Made(op, st.next)])
            && (forall other :: other != op.event ==> Listed(r.lists, other) == Listed(st.lists, other))
            && r.ran == st.ran && r.fired == st.fired && r.next == NextAfter(op, st.next) && !r.thrown
  {
  }

  /** A `newListener` handler that throws keeps the listener from being added. */
  lemma AddRefused(st: State, event: string, f: Fn, prepend: bool)
    requires Sane(st) && "newListener" in st.lists && !st.thrown
    ensures AbsAdd(st, event, f, prepend, []) == st.(thrown := true)
  {
  }

  /** `newListener` handlers that only return run once each, in order, before the listener is there. */
  lemma IdleAdd(st: State, op: Op)
    requires (op.Add? || op.AddOnce?) && Sane(st) && !st.thrown && "removeListener" !in st.lists
    requires |Listed(st.lists, "newListener")| <= |op.responses|
    requires forall i :: 0 <= i < |op.responses| ==> Idle(op.responses[i])
    ensures var r, handlers := AbsOp(st, op), Listed(st.lists, "newListener");
            && r.ran == st.ran + handlers && !r.thrown && r.next == NextAfter(op, st.next)
            && Listed(r.lists, op.event) == Placed(if op.event == "newListener" then Permanent(handlers)
                                                   else Listed(st.lists, op.event), Made(op, st.next), op.prepend)
            && forall other :: other != op.event ==>
                 Listed(r.lists, other) ==
                 (if other == "newListener" then Permanent(handlers) else Listed(st.lists, other))
  {
    hide Sane;
    var st0 := st.(next := NextAfter(op, st.next));
    LaterSane(st, st0.next);
    if "newListener" in st.lists {
      IdleEmission(st0, "newListener", op.responses);
      EmissionNext(st0, Listed(st0.lists, "newListener"), op.responses);
    } else {
      AddPlaces(st, op);
      assert st.ran + [] == st.ran;
    }
  }

  lemma LaterSane(st: State, next: nat)
    requires Sane(st) && st.next <= next
    ensures Sane(st.(next := next))
  {
    forall t | t in st.lists ensures ListSane(st.(next := next), t, st.lists[t]) {
      assert ListSane(st, t, st.lists[t]);
    }
  }

  lemma {:induction false} EmissionNext(st: State, list: seq<Fn>, responses: seq<Response>)
    requires forall i :: 0 <= i < |responses| ==> Idle(responses[i])
    requires "removeListener" !in st.lists
    ensures AbsCalls(st, list, responses).next == st.next
    decreases |list|
  {
    hide Take;
    if list != [] && !st.thrown && responses != [] {
      IdleKeepsNext(st, list[0], responses[0]);
      EmissionNext(AbsInvoke(st, list[0], responses[0]), list[1..], responses[1..]);
    }
  }

  lemma IdleKeepsNext(st: State, f: Fn, r: Response)
    requires Idle(r) && "removeListener" !in st.lists && !st.thrown
    ensures AbsInvoke(st, f, r).next == st.next && "removeListener" !in AbsInvoke(st, f, r).lists
  {
    hide AbsBody, LastMatch;
    IdleBody(st, f, r);
    if f.Wrapper? {
      IdleBody(Take(st.(fired := st.fired + {f}), f.event, f), f, r);
    }
  }

  /** The operation registers a listener of a usual event, and every `newListener` handler only returns. */
  ghost predicate IdleAddition(st: State, op: Op) {
    && (op.Add? || op.AddOnce?) && op.event != "newListener" && op.event != "removeListener"
    && |Listed(st.lists, "newListener")| <= |op.responses|
    && forall i :: 0 <= i < |op.responses| ==> Idle(op.responses[i])
  }

  ghost predicate IdleAdditions(st: State, program: seq<Op>) {
    forall i :: 0 <= i < |program| ==> IdleAddition(st, program[i])
  }

  ghost predicate Additions(program: seq<Op>) {
    forall i :: 0 <= i < |program| ==> program[i].Add? || program[i].AddOnce?
  }

  lemma OnlyAdditions(st: State, program: seq<Op>)
    requires IdleAdditions(st, program)
    ensures Additions(program)
    ensures program != [] ==> IdleAddition(st, program[0]) && IdleAdditions(st, program[1..]) && Additions(program[1..])
  {
  }

  /** The listeners a program appends to an event, in order. */
  ghost function Appended(program: seq<Op>, event: string, next: nat): seq<Fn>
    requires Additions(program)
  {
    if program == [] then []
    else
      var op := program[0];
      (if op.event == event && !op.prepend then [Made(op, next)] else [])
      + Appended(program[1..], event, NextAfter(op, next))
  }

  /** Those it prepends, the latest first. */
  ghost function Prepended(program: seq<Op>, event: string, next: nat): seq<Fn>
    requires Additions(program)
  {
    if program == [] then []
    else
      var op := program[0];
      Prepended(program[1..], event, NextAfter(op, next))
      + (if op.event == event && op.prepend then [Made(op, next)] else [])
  }

  lemma PermanentShrinks(list: seq<Fn>)
    ensures |Permanent(list)| <= |list|
  {
  }

  /** One addition among others. */
  lemma AdditionKeeps(st: State, op: Op, rest: seq<Op>)
    requires Sane(st) && !st.thrown && "removeListener" !in st.lists
    requires IdleAddition(st, op) && IdleAdditions(st, rest)
    ensures var r := AbsOp(st, op);
            Sane(r) && !r.thrown && "removeListener" !in r.lists && IdleAdditions(r, rest)
  {
    hide Sane, AbsOp, Permanent, Idle, Placed;
    var r := AbsOp(st, op);
    OpKeeps(st, op);
    IdleAdd(st, op);
    PermanentShrinks(Listed(st.lists, "newListener"));
    NobodyListed(r, "removeListener");
  }

  lemma NobodyListed(st: State, event: string)
    requires Sane(st) && Listed(st.lists, event) == []
    ensures event !in st.lists
  {
  }

  /** After any such program a list holds the prepended listeners, latest first, then those that were
      there, then the appended ones in order. */
  lemma {:induction false} AddsInOrder(st: State, program: seq<Op>, event: string)
    requires Sane(st) && !st.thrown && "removeListener" !in st.lists && IdleAdditions(st, program)
    requires event != "newListener"
    ensures var r := AbsRun(st, program);
            && Sane(r) && !r.thrown && "removeListener" !in r.lists
            && Listed(r.lists, event) ==
               Prepended(program, event, st.next) + Listed(st.lists, event) + Appended(program, event, st.next)
    decreases |program|
  {
    hide Sane, AbsOp, Permanent, Listed, IdleAdditions, IdleAddition, Additions;
    OnlyAdditions(st, program);
    if program == [] {
      var list := Listed(st.lists, event);
      assert [] + list + [] == list;
    } else {
      var op := program[0];
      var st1 := AbsOp(st, op);
      assert st.(thrown := false) == st;
      AdditionKeeps(st, op, program[1..]);
      AddsInOrder(st1, program[1..], event);
      AdditionPlaces(st, op, event);
      var a, b := Prepended(program[1..], event, st1.next), Appended(program[1..], event, st1.next);
      Around(a, Made(op, st.next), Listed(st.lists, event), b);
    }
  }

  lemma AdditionPlaces(st: State, op: Op, event: string)
    requires Sane(st) && !st.thrown && "removeListener" !in st.lists && IdleAddition(st, op)
    requires event != "newListener"
    ensures var r, list := AbsOp(st, op), Listed(st.lists, event);
            && r.next == NextAfter(op, st.next)
            && Listed(r.lists, event) == if op.event == event then Placed(list, Made(op, st.next), op.prepend) else list
  {
    hide Sane, AbsOp, Permanent, Idle, Listed;
    IdleAdd(st, op);
  }

  lemma Around(a: seq<Fn>, f: Fn, list: seq<Fn>, b: seq<Fn>)
    ensures a + ([f] + list) + b == (a + [f]) + list + b && a + (list + [f]) + b == a + list + ([f] + b)
    ensures [] + b == b && a + [] == a
  {
  }

  /** The emission that follows calls them in that order. */
  lemma AddsThenEmit(st: State, program: seq<Op>, event: string, responses: seq<Response>)
    requires Sane(st) && !st.thrown && "removeListener" !in st.lists && IdleAdditions(st, program)
    requires event != "newListener" && forall i :: 0 <= i < |responses| ==> Idle(responses[i])
    requires var list := Prepended(program, event, st.next) + Listed(st.lists, event)
                         + Appended(program, event, st.next);
             |list| <= |responses|
    ensures var r, list := AbsRun(st, program), Prepended(program, event, st.next) + Listed(st.lists, event)
                                                + Appended(program, event, st.next);
            AbsEmit(r, event, responses).ran == r.ran + list
  {
    hide Sane, AbsRun, AbsEmit, Idle, Listed, IdleAdditions, Prepended, Appended;
    AddsInOrder(st, program, event);
    IdleEmission(AbsRun(st, program), event, responses);
  }

  lemma MatchFound(list: seq<Fn>, f: Fn)
    ensures LastMatch(list, f) >= 0 <==> Count(list, f) > 0
  {
    hide Matches, Count;
    var p := LastMatch(list, f);
    if p < 0 { CountNone(list, f); } else { CountAround(list, p, f); }
  }

  /** Removing what is not registered does nothing and tells nobody. */
  lemma RemoveNothing(st: State, event: string, f: Fn, responses: seq<Response>)
    requires Count(Listed(st.lists, event), f) == 0
    ensures AbsRemove(st, event, f, responses) == st
  {
    hide Count;
    MatchFound(Listed(st.lists, event), f);
  }

  /** A `removeListener` handler that throws finds the listener already removed. */
  lemma RemoveThrows(st: State, event: string, f: Fn)
    requires Sane(st) && !st.thrown && Count(Listed(st.lists, event), f) > 0
    requires "removeListener" in Take(st, event, f).lists
    ensures AbsRemove(st, event, f, []) == Take(st, event, f).(thrown := true)
  {
    hide Count;
    MatchFound(Listed(st.lists, event), f);
    TakeSane(st, event, f);
  }

  /** Permanent `removeListener` handlers that only return run once each, in order, after a removal. */
  lemma RemoveNotifies(st: State, event: string, f: Fn, responses: seq<Response>)
    requires Sane(st) && !st.thrown && Count(Listed(st.lists, event), f) > 0
    requires var handlers := Listed(Take(st, event, f).lists, "removeListener");
             AllPlain(handlers) && |handlers| <= |responses|
    requires forall i :: 0 <= i < |responses| ==> Idle(responses[i])
    ensures var left := Take(st, event, f);
            AbsRemove(st, event, f, responses) == left.(ran := st.ran + Listed(left.lists, "removeListener"))
  {
    hide Count;
    MatchFound(Listed(st.lists, event), f);
    var left := Take(st, event, f);
    if "removeListener" in left.lists {
      PlainCalls(left, Listed(left.lists, "removeListener"), responses);
    } else {
      assert st.ran + [] == st.ran;
    }
  }

  lemma {:induction false} PlainCalls(st: State, list: seq<Fn>, responses: seq<Response>)
    requires !st.thrown && AllPlain(list) && |list| <= |responses|
    requires forall i :: 0 <= i < |responses| ==> Idle(responses[i])
    ensures AbsCalls(st, list, responses) == st.(ran := st.ran + list)
    decreases |list|
  {
    hide AbsBody;
    if list == [] {
      assert st.ran + [] == st.ran;
    } else {
      IdleBody(st, list[0], responses[0]);
      PlainCalls(st.(ran := st.ran + [list[0]]), list[1..], responses[1..]);
      assert st.ran + [list[0]] + list[1..] == st.ran + list;
    }
  }

  /** Whatever the first of two permanent listeners does without throwing, removing the second one
      included, the emission under way goes on to the second. */
  lemma EmissionIsSnapshot(st: State, event: string, f: nat, g: nat, first: seq<Op>, second: Response)
    requires !st.thrown && Listed(st.lists, event) == [Plain(f), Plain(g)] && Idle(second)
    ensures var called := AbsOps(st.(ran := st.ran + [Plain(f)]), first);
            !called.thrown ==> AbsEmit(st, event, [Response([], first, false), second])
                               == called.(ran := called.ran + [Plain(g)])
  {
    hide AbsOps;
    var list := [Plain(f), Plain(g)];
    var called := AbsOps(st.(ran := st.ran + [Plain(f)]), first);
    assert list[1..] == [Plain(g)] && list[1..][1..] == [];
    if !called.thrown {
      SecondCalled(called, Plain(g), second);
      CallsStep(st, list, [Response([], first, false), second]);
    }
  }

  lemma SecondCalled(st: State, g: Fn, r: Response)
    requires !st.thrown && g.Plain? && Idle(r)
    ensures AbsCalls(st, [g], [r]) == st.(ran := st.ran + [g])
  {
    IdleBody(st, g, r);
    PlainCalls(st, [g], [r]);
  }

  // ---------------------------------------------------------------------------------------
  // The storage
  // ---------------------------------------------------------------------------------------

  /** A single listener is stored bare, several in an array. */
  datatype Stored = One(f: Fn) | Many(fs: seq<Fn>)

  function AsList(s: Stored): seq<Fn> {
    match s
    case One(f) => [f]
    case Many(fs) => fs
  }

  function Lists(events: map<string, Stored>): map<string, seq<Fn>> {
    map t | t in events :: AsList(events[t])
  }

  ghost predicate StorageValid(events: map<string, Stored>, eventsCount: nat) {
    eventsCount == |events| && forall t :: t in events && events[t].Many? ==> |events[t].fs| >= 2
  }

  lemma StoreStored(events: map<string, Stored>, eventsCount: nat, event: string, s: Stored)
    requires StorageValid(events, eventsCount) && (s.Many? ==> |s.fs| >= 2)
    ensures StorageValid(events[event := s], if event in events then eventsCount else eventsCount + 1)
    ensures Lists(events[event := s]) == Lists(events)[event := AsList(s)]
  {
    SizeOfStore(events, event, s);
  }

  lemma SizeOfStore(events: map<string, Stored>, event: string, s: Stored)
    ensures |events[event := s]| == if event in events then |events| else |events| + 1
  {
    if event in events {
      assert events[event := s].Keys == events.Keys;
    } else {
      assert events[event := s].Keys == events.Keys + {event};
    }
    assert |events[event := s].Keys| == |events[event := s]| && |events.Keys| == |events|;
  }

  lemma StoredOf(events: map<string, Stored>, eventsCount: nat, event: string)
    requires StorageValid(events, eventsCount) && event in events
    ensures |AsList(events[event])| >= if events[event].Many? then 2 else 1
    ensures event in Lists(events) && Lists(events)[event] == AsList(events[event])
  {
  }

  lemma NothingStored(events: map<string, Stored>, event: string)
    requires event !in events
    ensures event !in Lists(events) && Listed(Lists(events), event) == []
  {
  }

  lemma TakeNothing(st: State, event: string, f: Fn)
    requires event !in st.lists
    ensures LastMatch(Listed(st.lists, event), f) == -1 && Take(st, event, f) == st
  {
  }

  lemma TakeAt(st: State, event: string, f: Fn)
    requires event in st.lists
    ensures var list := st.lists[event];
            var p := LastMatch(list, f);
            Take(st, event, f) == if p < 0 then st else st.(lists := Store(st.lists, event, list[..p] + list[p + 1..]))
  {
  }

  lemma TakeSingle(st: State, event: string, g: Fn, f: Fn)
    requires event in st.lists && st.lists[event] == [g]
    ensures LastMatch(Listed(st.lists, event), f) == if Matches(g, f) then 0 else -1
    ensures Take(st, event, f) == if Matches(g, f) then st.(lists := st.lists - {event}) else st
  {
  }

  lemma DropStored(events: map<string, Stored>, eventsCount: nat, event: string)
    requires StorageValid(events, eventsCount) && event in events
    ensures eventsCount > 0 && StorageValid(events - {event}, eventsCount - 1)
    ensures Lists(events - {event}) == Lists(events) - {event}
    ensures eventsCount == 1 ==> events - {event} == map[]
  {
    assert (events - {event}).Keys == events.Keys - {event};
    assert |(events - {event}).Keys| == |events - {event}| && |events.Keys| == |events|;
    if eventsCount == 1 {
      assert |events - {event}| == 0;
    }
  }

  class EventEmitter {
    var events: map<string, Stored>
    var eventsCount: nat
    /** The `fired` flags of the wrappers made so far, `next` of them. */
    var fired: set<Fn>
    var next: nat
    /** An exception is propagating. */
    var thrown: bool
    ghost var ran: seq<Fn>

    ghost predicate Valid()
      reads this
    {
      StorageValid(events, eventsCount)
    }

    ghost function Now(): State
      reads this
    {
      State(Lists(events), fired, ran, next, thrown)
    }

    constructor ()
      ensures Valid() && Now() == EMPTY
    {
      events, eventsCount, fired, next, thrown, ran := map[], 0, {}, 0, false, [];
    }

    method AddListener(event: string, f: Fn, prepend: bool, responses: seq<Response>)
      requires Valid() && !thrown
      modifies this
      ensures Valid() && Now() == AbsAdd(old(Now()), event, f, prepend, responses)
      decreases responses, 2
    {
      hide AbsEmit, StorageValid;
      if "newListener" in events {
        var _ := EmitEvent("newListener", responses);
        if thrown { return; }
      }
      if event !in events {
        NothingStored(events, event);
        assert [f] + [] == [f] && [] + [f] == [f];
        StoreStored(events, eventsCount, event, One(f));
        events := events[event := One(f)];
        eventsCount := eventsCount + 1;
      } else {
        var existing := AsList(events[event]);
        StoredOf(events, eventsCount, event);
        var several := if prepend then [f] + existing else existing + [f];
        StoreStored(events, eventsCount, event, Many(several));
        events := events[event := Many(several)];
      }
    }

    method RemoveListener(event: string, f: Fn, responses: seq<Response>)
      requires Valid() && !thrown
      modifies this
      ensures Valid() && Now() == AbsRemove(old(Now()), event, f, responses)
      decreases responses, 2
    {
      hide AbsEmit, StorageValid, Take, LastMatch, Matches;
      if event !in events {
        TakeNothing(Now(), event, f);
        return;
      }
      StoredOf(events, eventsCount, event);
      match events[event] {
        case One(g) =>
          TakeSingle(Now(), event, g, f);
          if Matches(g, f) {
            DropStored(events, eventsCount, event);
            eventsCount := eventsCount - 1;
            if eventsCount == 0 {
              events := map[];
            } else {
              events := events - {event};
              if "removeListener" in events {
                var _ := EmitEvent("removeListener", responses);
              }
            }
          }
        case Many(fs) =>
          var position := FindLast(fs, f);
          TakeAt(Now(), event, f);
          if position >= 0 {
            RemoveAt(event, fs, position);
            if "removeListener" in events {
              var _ := EmitEvent("removeListener", responses);
            }
          }
      }
    }

    /** Calls every listener registered now; whether there was one. */
    method EmitEvent(event: string, responses: seq<Response>) returns (any: bool)
      requires Valid() && !thrown
      modifies this
      ensures Valid() && Now() == AbsEmit(old(Now()), event, responses) && any == (event in old(events))
      decreases responses, 1
    {
      hide AbsInvoke, StorageValid;
      if event !in events { return false; }
      var listeners := AsList(events[event]);
      ghost var before := Now();
      var i := 0;
      while i < |listeners| && !thrown
        invariant 0 <= i <= |listeners| && i <= |responses| && Valid()
        invariant AbsCalls(Now(), listeners[i..], responses[i..]) == AbsCalls(before, listeners, responses)
        decreases |listeners| - i, !thrown
      {
        if i == |responses| {
          thrown := true;
        } else {
          Invoke(listeners[i], responses[i]);
          i := i + 1;
        }
      }
      any := true;
    }

    method RemoveAt(event: string, fs: seq<Fn>, position: nat)
      requires Valid() && event in events && events[event] == Many(fs) && position < |fs|
      modifies `events
      ensures Valid() && Lists(events) == Store(Lists(old(events)), event, fs[..position] + fs[position + 1..])
    {
      hide Lists;
      var list := fs[..position] + fs[position + 1..];
      assert |list| >= 1;
      if |list| == 1 {
        StoreStored(events, eventsCount, event, One(list[0]));
        assert [list[0]] == list;
        events := events[event := One(list[0])];
      } else {
        StoreStored(events, eventsCount, event, Many(list));
        events := events[event := Many(list)];
      }
    }

    method Invoke(f: Fn, r: Response)
      requires Valid() && !thrown
      modifies this
      ensures Valid() && Now() == AbsInvoke(old(Now()), f, r)
      decreases r, 1
    {
      hide AbsRemove, AbsBody, StorageValid;
      match f
      case Plain(_) =>
        Callback(f, r);
      case Wrapper(_, event, _) =>
        if f !in fired {
          fired := fired + {f};
          RemoveListener(event, f, r.onRemove);
          if !thrown {
            Callback(f, r);
          }
        }
    }

    method Callback(f: Fn, r: Response)
      requires Valid() && !thrown
      modifies this
      ensures Valid() && Now() == AbsBody(old(Now()), f, r)
      decreases r, 0
    {
      hide AbsOps, StorageValid;
      ran := ran + [f];
      Perform(r.body);
      if r.throws {
        thrown := true;
      }
    }

    method Perform(ops: seq<Op>)
      requires Valid() && !thrown
      modifies this
      ensures Valid() && Now() == AbsOps(old(Now()), ops)
      decreases ops
    {
      hide AbsOp, StorageValid;
      ghost var before := Now();
      var i := 0;
      while i < |ops| && !thrown
        invariant 0 <= i <= |ops| && Valid() && AbsOps(Now(), ops[i..]) == AbsOps(before, ops)
        decreases |ops| - i
      {
        PerformOne(ops[i]);
        i := i + 1;
      }
    }

    method PerformOne(op: Op)
      requires Valid() && !thrown
      modifies this
      ensures Valid() && Now() == AbsOp(old(Now()), op)
      decreases op
    {
      hide AbsAdd, AbsRemove, AbsEmit, StorageValid;
      match op
      case Add(event, callback, prepend, responses) =>
        AddListener(event, Plain(callback), prepend, responses);
      case AddOnce(event, callback, prepend, responses) =>
        var wrapper := Wrapper(next, event, callback);
        next := next + 1;
        AddListener(event, wrapper, prepend, responses);
      case Remove(event, listener, responses) =>
        RemoveListener(event, listener, responses);
      case Emit(event, responses) =>
        var _ := EmitEvent(event, responses);
      case Guard(body) =>
        Perform(body);
        thrown := false;
    }

    /** The number of listeners of an event, or of those matching f. */
    method ListenerCount(event: string, f: Option<Fn>) returns (count: nat)
      requires Valid()
      ensures count == match f
                       case None => |Listed(Now().lists, event)|
                       case Some(g) => Count(Listed(Now().lists, event), g)
    {
      if event !in events { return 0; }
      match events[event] {
        case One(g) =>
          count := if f == None || Matches(g, f.value) then 1 else 0;
        case Many(fs) =>
          if f == None { return |fs|; }
          count := 0;
          for i := 0 to |fs|
            invariant count + Count(fs[i..], f.value) == Count(fs, f.value)
          {
            assert fs[i..][1..] == fs[i + 1..];
            if Matches(fs[i], f.value) { count := count + 1; }
          }
      }
    }
  }

  /** From the end, the first position that matches. */
  method FindLast(fs: seq<Fn>, f: Fn) returns (position: int)
    ensures position == LastMatch(fs, f)
  {
    position := -1;
    var i := |fs| - 1;
    while i >= 0
      invariant -1 <= i < |fs| && forall k :: i < k < |fs| ==> !Matches(fs[k], f)
    {
      if Matches(fs[i], f) {
        position := i;
        break;
      }
      i := i - 1;
    }
  }

  /** Every program, whatever its handlers do, leaves the storage well-formed, the count right, and the
      lists the specification computes. */
  method Run(program: seq<Op>) returns (emitter: EventEmitter)
    ensures emitter.Valid() && emitter.Now() == AbsRun(EMPTY, program) && Sane(emitter.Now())
  {
    hide AbsOp, StorageValid, Sane;
    emitter := new EventEmitter();
    EmptySane();
    EveryRun(EMPTY, program);
    for i := 0 to |program|
      invariant fresh(emitter) && emitter.Valid() && AbsRun(emitter.Now(), program[i..]) == AbsRun(EMPTY, program)
    {
      emitter.thrown := false;
      emitter.PerformOne(program[i]);
    }
  }

  lemma EmptySane()
    ensures Sane(EMPTY)
  {
  }
}
