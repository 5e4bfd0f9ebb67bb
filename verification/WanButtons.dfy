/** The WAN Up and WAN Down buttons of the dashboard, and the operation they may have pending. */
module WanButtons {
  import opened Results
  import opened Transitions

  datatype Op = Up | Down

  /** The part of the page and of the script's state that decides what can be clicked. `sent` is history. */
  datatype View = View(
    wanPending: Option<Op>, lastSupplicantActive: bool,
    upHidden: bool, downHidden: bool, upDisabled: bool, downDisabled: bool,
    inFlight: seq<Op>, sent: seq<Op>)

  /** The page as it is loaded. */
  const LOADED := View(None, false, true, true, false, false, [], [])

  /**
   What can happen: a click on a button, the end of an operation's request, or statistics to render,
   possibly fetched long ago.
   */
  datatype Event =
    | Click(op: Op)
    | Ended(i: nat, ok: bool)
    | Stats(admin: bool, interfacePresent: bool, supplicantActive: bool)

  /** Whether the browser lets the user click the button. */
  predicate Clickable(v: View, op: Op) {
    match op
    case Up => !v.upHidden && !v.upDisabled
    case Down => !v.downHidden && !v.downDisabled
  }

  function Restored(v: View): View {
    v.(upDisabled := v.lastSupplicantActive, downDisabled := !v.lastSupplicantActive)
  }

  /** Buttons that are shown. */
  function ShownAs(v: View, active: bool): View {
    match v.wanPending
    case Some(Up) =>
      if active then v.(wanPending := None, upDisabled := true, downDisabled := false)
      else v.(upDisabled := true, downDisabled := true)
    case Some(Down) =>
      if !active then v.(wanPending := None, upDisabled := false, downDisabled := true)
      else v.(upDisabled := true, downDisabled := true)
    case None => v.(upDisabled := active, downDisabled := !active)
  }

  function Rendered(v: View, admin: bool, present: bool, active: bool): View {
    var shown := admin && present;
    var w := v.(lastSupplicantActive := active, upHidden := !shown, downHidden := !shown);
    if shown then ShownAs(w, active) else w.(wanPending := None)
  }

  function Next(v: View, e: Event): View {
    match e
    case Click(op) =>
      if Clickable(v, op) then v.(wanPending := Some(op), inFlight := v.inFlight + [op], sent := v.sent + [op]) else v
    case Ended(i, ok) =>
      if i >= |v.inFlight| then v
      else
        var w := v.(inFlight := v.inFlight[..i] + v.inFlight[i + 1..]);
        if ok then w else Restored(w.(wanPending := None))
    case Stats(admin, present, active) => Rendered(v, admin, present, active)
  }

  /** The page after any sequence of events. */
  function After(events: seq<Event>): View {
    if events == [] then LOADED else Next(After(events[..|events| - 1]), events[|events| - 1])
  }

  // ----- The script

  class Dashboard {
    var wanPending: Option<Op>
    var lastSupplicantActive: bool
    var upHidden: bool
    var downHidden: bool
    var upDisabled: bool
    var downDisabled: bool
    var inFlight: seq<Op>
    ghost var events: seq<Event>
    ghost var sent: seq<Op>

    ghost function Shows(): View
      reads this
    {
      View(wanPending, lastSupplicantActive, upHidden, downHidden, upDisabled, downDisabled, inFlight, sent)
    }

    ghost predicate Valid()
      reads this
    {
      Shows() == After(events)
    }

    constructor ()
      ensures Valid() && events == []
    {
      wanPending, lastSupplicantActive := None, false;
      upHidden, downHidden, upDisabled, downDisabled := true, true, false, false;
      inFlight, events, sent := [], [], [];
    }

    method RestoreWanButtons()
      modifies this`upDisabled, this`downDisabled
      ensures Shows() == Restored(old(Shows()))
    {
      upDisabled := lastSupplicantActive;
      downDisabled := !lastSupplicantActive;
    }

    ghost method Happened(e: Event)
      requires Shows() == Next(After(events), e)
      modifies this`events
      ensures Valid() && events == old(events) + [e]
    {
      assert (events + [e])[..|events|] == events;
      events := events + [e];
    }

    /** `wanOp` up to its request, run by a click that the browser lets through. */
    method WanOpStart(op: Op)
      requires Valid()
      modifies this
      ensures Valid() && events == old(events) + [Click(op)]
      ensures
        var enabled := old(if op == Up then !upHidden && !upDisabled else !downHidden && !downDisabled);
        && sent == old(sent) + (if enabled then [op] else [])
        && inFlight == old(inFlight) + (if enabled then [op] else [])
        && wanPending == if enabled then Some(op) else old(wanPending)
    {
      var clickable := match op case Up => !upHidden && !upDisabled case Down => !downHidden && !downDisabled;
      if clickable {
        wanPending := Some(op);
        inFlight := inFlight + [op];
        sent := sent + [op];
      }
      Happened(Click(op));
    }

    /** The rest of `wanOp`, when the request of one of the operations in flight ends. */
    method WanOpEnd(i: nat, ok: bool)
      requires Valid() && i < |inFlight|
      modifies this
      ensures Valid() && events == old(events) + [Ended(i, ok)]
      ensures !ok ==> wanPending == None && upDisabled == lastSupplicantActive && downDisabled == !lastSupplicantActive
      ensures ok ==> wanPending == old(wanPending) && upDisabled == old(upDisabled) && downDisabled == old(downDisabled)
      ensures lastSupplicantActive == old(lastSupplicantActive) && upHidden == old(upHidden) && downHidden == old(downHidden)
      ensures inFlight == old(inFlight[..i] + inFlight[i + 1..]) && sent == old(sent)
    {
      inFlight := inFlight[..i] + inFlight[i + 1..];
      if !ok {
        wanPending := None;
        RestoreWanButtons();
      }
      Happened(Ended(i, ok));
    }

    /** The branches of `renderWAN` for buttons that are shown. */
    method RenderShown(active: bool)
      modifies this`wanPending, this`upDisabled, this`downDisabled
      ensures Shows() == ShownAs(old(Shows()), active)
    {
      if wanPending == Some(Up) {
        if active {
          wanPending := None;
          upDisabled := true;
          downDisabled := false;
        } else {
          upDisabled := true;
          downDisabled := true;
        }
      } else if wanPending == Some(Down) {
        if !active {
          wanPending := None;
          upDisabled := false;
          downDisabled := true;
        } else {
          upDisabled := true;
          downDisabled := true;
        }
      } else {
        upDisabled := active;
        downDisabled := !active;
      }
    }

    /** The buttons' part of `renderWAN`. */
    method RenderWAN(admin: bool, interfacePresent: bool, supplicantActive: bool)
      requires Valid()
      modifies this
      ensures Valid() && events == old(events) + [Stats(admin, interfacePresent, supplicantActive)]
      ensures lastSupplicantActive == supplicantActive && upHidden == downHidden == !(admin && interfacePresent)
      ensures !upHidden ==>
        if old(wanPending) == Some(if supplicantActive then Down else Up)
        then wanPending == old(wanPending) && upDisabled && downDisabled
        else wanPending == None && upDisabled == supplicantActive && downDisabled == !supplicantActive
      ensures upHidden ==> wanPending == None
    {
      lastSupplicantActive := supplicantActive;
      var showWanBtns := admin && interfacePresent;
      upHidden := !showWanBtns;
      downHidden := !showWanBtns;
      if !showWanBtns && wanPending != None {
        wanPending := None;
      }
      if showWanBtns {
        RenderShown(supplicantActive);
      }
      Happened(Stats(admin, interfacePresent, supplicantActive));
    }
  }

  // ----- What holds in every reachable state

  /** With an operation pending, it is the one that the last seen state calls for, and the other button is disabled. */
  predicate PendingInv(v: View) {
    match v.wanPending
    case None => v.upDisabled == v.lastSupplicantActive && v.downDisabled == !v.lastSupplicantActive
    case Some(Up) => v.downDisabled && !v.lastSupplicantActive
    case Some(Down) => v.upDisabled && v.lastSupplicantActive
  }

  predicate Inv(v: View) {
    && v.upHidden == v.downHidden
    && (v.upHidden ==> v.wanPending == None)
    && (!v.upHidden ==> PendingInv(v))
  }

  lemma AfterMore(events: seq<Event>, e: Event)
    ensures After(events + [e]) == Next(After(events), e)
  {
    assert (events + [e])[..|events|] == events;
  }

  lemma {:induction false} AlwaysInv(events: seq<Event>)
    ensures Inv(After(events))
  {
    if events != [] {
      AlwaysInv(events[..|events| - 1]);
    }
  }

  /**
   Hidden buttons have no operation pending. Visible ones are never both enabled; with an operation
   pending the opposite one is disabled; with none exactly one is enabled, the one the last seen
   supplicant state calls for.
   */
  lemma {:induction false} ButtonsMatchState(events: seq<Event>)
    ensures
      var v := After(events);
      && (v.upHidden <==> v.downHidden)
      && (v.upHidden ==> v.wanPending == None)
      && !(Clickable(v, Up) && Clickable(v, Down))
      && (v.wanPending == Some(Up) ==> !Clickable(v, Down))
      && (v.wanPending == Some(Down) ==> !Clickable(v, Up))
      && (!v.upHidden && v.wanPending == None ==>
            (Clickable(v, Up) <==> !v.lastSupplicantActive) && (Clickable(v, Down) <==> v.lastSupplicantActive))
  {
    AlwaysInv(events);
  }

  /** Every operation ever sent was the one that the last rendered state called for. */
  lemma SentFitsState(events: seq<Event>, op: Op)
    requires After(events + [Click(op)]).sent != After(events).sent
    ensures After(events + [Click(op)]).sent == After(events).sent + [op]
    ensures op == if After(events).lastSupplicantActive then Down else Up
  {
    AlwaysInv(events);
    AfterMore(events, Click(op));
  }

  // ----- The history behind a state

  /**
   The end of a request: a failed one leaves nothing pending and enables the button that fits the last
   seen state alone; a successful one leaves the pending operation and both buttons as they were.
   */
  lemma EndOfRequest(events: seq<Event>, i: nat)
    requires i < |After(events).inFlight|
    ensures
      var v, w := After(events), After(events + [Ended(i, false)]);
      && w.wanPending == None && w.upDisabled == v.lastSupplicantActive && w.downDisabled == !v.lastSupplicantActive
      && (!v.upHidden ==> Clickable(w, Down) == v.lastSupplicantActive && Clickable(w, Up) == !v.lastSupplicantActive)
    ensures
      var v, w := After(events), After(events + [Ended(i, true)]);
      w.wanPending == v.wanPending && w.upDisabled == v.upDisabled && w.downDisabled == v.downDisabled
    ensures forall ok: bool ::
      var v, w := After(events), After(events + [Ended(i, ok)]);
      && w.lastSupplicantActive == v.lastSupplicantActive && w.upHidden == v.upHidden && w.downHidden == v.downHidden
      && w.sent == v.sent && w.inFlight == v.inFlight[..i] + v.inFlight[i + 1..]
  {
    AlwaysInv(events);
    AfterMore(events, Ended(i, false));
    AfterMore(events, Ended(i, true));
  }

  /** The index of the latest statistics, -1 before the first. */
  function LatestStats(events: seq<Event>): (k: int)
    ensures -1 <= k < |events| && (k >= 0 ==> events[k].Stats?)
    ensures forall j :: k < j < |events| ==> !events[j].Stats?
  {
    if events == [] then -1
    else if events[|events| - 1].Stats? then |events| - 1
    else LatestStats(events[..|events| - 1])
  }

  /** The buttons are shown, and the last seen state is, what the latest statistics say; hidden and inactive before any. */
  lemma {:induction false} PageFollowsStats(events: seq<Event>)
    ensures
      var v, k := After(events), LatestStats(events);
      && v.upHidden == v.downHidden == !(k >= 0 && events[k].admin && events[k].interfacePresent)
      && v.lastSupplicantActive == (k >= 0 && events[k].supplicantActive)
  {
    if events != [] {
      PageFollowsStats(events[..|events| - 1]);
    }
  }

  /** Event `k` is a click that sent `op`. */
  predicate SentAt(events: seq<Event>, k: nat, op: Op) {
    k < |events| && events[k] == Click(op) && After(events[..k + 1]).sent == After(events[..k]).sent + [op]
  }

  /** Seen in `v`, the event is the failed end of a request in flight, a render that hides the buttons, or one of the state `op` aims for. */
  predicate Settles(v: View, e: Event, op: Op) {
    match e
    case Click(_) => false
    case Ended(i, ok) => !ok && i < |v.inFlight|
    case Stats(admin, present, active) => !(admin && present) || active == (op == Up)
  }

  /** Event `j` settles `op`. */
  predicate SettledAt(events: seq<Event>, j: nat, op: Op) {
    j < |events| && Settles(After(events[..j]), events[j], op)
  }

  lemma PendingStep(v: View, e: Event, op: Op)
    requires Inv(v)
    ensures Next(v, e).wanPending == Some(op) <==>
      (e == Click(op) && Next(v, e).sent == v.sent + [op]) || (v.wanPending == Some(op) && !Settles(v, e, op))
  {
  }

  lemma PendingGoesOn(events: seq<Event>, i: nat, op: Op)
    requires i < |events|
    ensures After(events[..i + 1]).wanPending == Some(op) <==>
      SentAt(events, i, op) || (After(events[..i]).wanPending == Some(op) && !SettledAt(events, i, op))
  {
    AlwaysInv(events[..i]);
    PendingStep(After(events[..i]), events[i], op);
    assert events[..i + 1] == events[..i] + [events[i]];
    AfterMore(events[..i], events[i]);
  }

  function PendingFlag(events: seq<Event>, op: Op): nat -> bool {
    (i: nat) => i <= |events| && After(events[..i]).wanPending == Some(op)
  }

  function SentFlag(events: seq<Event>, op: Op): nat -> bool {
    (i: nat) => SentAt(events, i, op)
  }

  function SettledFlag(events: seq<Event>, op: Op): nat -> bool {
    (i: nat) => SettledAt(events, i, op)
  }

  lemma PendingFlagSince(events: seq<Event>, op: Op)
    ensures
      var n, sent, settled := |events|, SentFlag(events, op), SettledFlag(events, op);
      PendingFlag(events, op)(n) <==> exists k: nat :: k < n && sent(k) && forall j: nat :: k < j < n ==> !settled(j)
  {
    var pending, sent, settled := PendingFlag(events, op), SentFlag(events, op), SettledFlag(events, op);
    forall i: nat | i < |events|
      ensures pending(i + 1) <==> sent(i) || (pending(i) && !settled(i))
    {
      PendingGoesOn(events, i, op);
    }
    assert events[..0] == [];
    Since(pending, sent, settled, |events|);
  }

  /** Event `k` sent `op`, and none of the events after it settled it. */
  ghost predicate PendingSince(events: seq<Event>, k: nat, op: Op) {
    SentAt(events, k, op) && forall j: nat :: k < j < |events| ==> !SettledAt(events, j, op)
  }

  lemma PendingSinceFlags(events: seq<Event>, k: nat, op: Op)
    ensures
      var n, sent, settled := |events|, SentFlag(events, op), SettledFlag(events, op);
      PendingSince(events, k, op) <==> k < n && sent(k) && forall j: nat :: k < j < n ==> !settled(j)
  {
    var settled := SettledFlag(events, op);
    assert forall j: nat :: settled(j) == SettledAt(events, j, op);
  }

  /**
   An operation is pending exactly when some click sent it that was followed by no failed end of a
   request, no render that hides the buttons, and no render of the state it aims for.
   */
  lemma PendingExactlyWhen(events: seq<Event>, op: Op)
    ensures After(events).wanPending == Some(op) <==> exists k: nat :: PendingSince(events, k, op)
  {
    var n, sent, settled := |events|, SentFlag(events, op), SettledFlag(events, op);
    PendingFlagSince(events, op);
    assert events[..n] == events;
    forall k: nat
      ensures PendingSince(events, k, op) <==> k < n && sent(k) && forall j: nat :: k < j < n ==> !settled(j)
    {
      PendingSinceFlags(events, k, op);
    }
  }

  /** A render has come since the pending operation was clicked: the latest events are a render and ones that kept it pending. */
  predicate ShownSince(events: seq<Event>) {
    events != [] &&
    match events[|events| - 1]
    case Stats(_, _, _) => true
    case Click(_) => After(events[..|events| - 1]).wanPending.Some? && ShownSince(events[..|events| - 1])
    case Ended(_, _) => ShownSince(events[..|events| - 1])
  }

  /**
   The page's lock is exactly as good as its first render: in every reachable state with an operation
   pending, its button is unlocked if and only if no render has come since the click.
   */
  lemma {:induction false} LockedExactlyWhen(events: seq<Event>, op: Op)
    requires After(events).wanPending == Some(op)
    ensures Clickable(After(events), op) <==> !ShownSince(events)
  {
    var front := events[..|events| - 1];
    AlwaysInv(front);
    if After(front).wanPending == Some(op) {
      LockedExactlyWhen(front, op);
    }
  }

  /** An operation is pending in every state from `After(events)` to `After(events + more)`. */
  ghost predicate StaysPending(events: seq<Event>, more: seq<Event>) {
    forall k :: 0 <= k <= |more| ==> After(events + more[..k]).wanPending.Some?
  }

  lemma NothingClickable(events: seq<Event>)
    requires After(events).wanPending.Some? && ShownSince(events)
    ensures !Clickable(After(events), Up) && !Clickable(After(events), Down)
    ensures After(events).upDisabled && After(events).downDisabled
  {
    AlwaysInv(events);
    LockedExactlyWhen(events, After(events).wanPending.value);
  }

  lemma ShownStays(events: seq<Event>, e: Event)
    requires After(events).wanPending.Some? && ShownSince(events)
    ensures ShownSince(events + [e]) && After(events + [e]).sent == After(events).sent
  {
    NothingClickable(events);
    assert (events + [e])[..|events|] == events;
  }

  /** Once a render has shown an operation pending, none is sent until the pending state clears. */
  lemma {:induction false} NothingSentWhilePending(events: seq<Event>, more: seq<Event>)
    requires ShownSince(events) && StaysPending(events, more)
    ensures After(events + more).sent == After(events).sent
    ensures !Clickable(After(events + more), Up) && !Clickable(After(events + more), Down)
    ensures After(events + more).upDisabled && After(events + more).downDisabled
    ensures ShownSince(events + more)
    decreases |more|
  {
    assert more[..|more|] == more;
    if more == [] {
      assert events + more == events;
    } else {
      var front, e := more[..|more| - 1], more[|more| - 1];
      assert forall k :: 0 <= k <= |front| ==> front[..k] == more[..k];
      NothingSentWhilePending(events, front);
      assert events + more == events + front + [e];
      ShownStays(events + front, e);
    }
    NothingClickable(events + more);
  }

  /**
   A click sends its operation exactly when the buttons are shown, the last seen state calls for it, and
   no operation is pending that a render has shown.
   */
  lemma ClickSendsExactlyWhen(events: seq<Event>, op: Op)
    ensures
      var v := After(events);
      After(events + [Click(op)]).sent == v.sent +
        if !v.upHidden && op == (if v.lastSupplicantActive then Down else Up) && (v.wanPending == None || !ShownSince(events))
        then [op] else []
  {
    AfterMore(events, Click(op));
    ButtonsMatchState(events);
    AlwaysInv(events);
    if After(events).wanPending.Some? {
      LockedExactlyWhen(events, After(events).wanPending.value);
    }
  }

  /** `n` clicks on the same button. */
  function Clicks(op: Op, n: nat): seq<Event> {
    seq(n, _ => Click(op))
  }

  function Ops(op: Op, n: nat): seq<Op> {
    seq(n, _ => op)
  }

  lemma OneMoreClick(events: seq<Event>, op: Op)
    requires After(events).wanPending == Some(op)
    ensures
      var v := After(events + [Click(op)]);
      && v.wanPending == Some(op)
      && v.sent == After(events).sent + (if ShownSince(events) then [] else [op])
      && ShownSince(events + [Click(op)]) == ShownSince(events)
  {
    LockedExactlyWhen(events, op);
    assert (events + [Click(op)])[..|events|] == events;
  }

  /** Without a render since the first click, every further one sends the operation again; with one, none does. */
  lemma {:induction false} ClicksSendAgain(events: seq<Event>, op: Op, n: nat)
    requires After(events).wanPending == Some(op)
    ensures
      var v := After(events + Clicks(op, n));
      && v.wanPending == Some(op)
      && v.sent == After(events).sent + (if ShownSince(events) then [] else Ops(op, n))
      && ShownSince(events + Clicks(op, n)) == ShownSince(events)
  {
    if n == 0 {
      assert events + Clicks(op, 0) == events;
    } else {
      ClicksSendAgain(events, op, n - 1);
      OneMoreClick(events + Clicks(op, n - 1), op);
      assert events + Clicks(op, n) == events + Clicks(op, n - 1) + [Click(op)];
      assert Ops(op, n) == Ops(op, n - 1) + [op];
    }
  }

  /** The same operation sent twice, in three events. */
  lemma SameOperationTwice()
    ensures After([Stats(true, true, false), Click(Up), Click(Up)]).sent == [Up, Up]
  {
    var e := [Stats(true, true, false), Click(Up)];
    assert e[..1] == [Stats(true, true, false)] && e[..1][..0] == [];
    assert After(e[..1]) == Next(LOADED, Stats(true, true, false));
    assert After(e) == Next(After(e[..1]), Click(Up));
    assert !ShownSince(e);
    ClicksSendAgain(e, Up, 1);
    assert e + Clicks(Up, 1) == [Stats(true, true, false), Click(Up), Click(Up)];
  }
}
