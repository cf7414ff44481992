/**
  All invitations over time. A send first ends the guest's live tokens and then,
  in a second write, creates the new one; workers, webhooks, replies and changes
  of guests may come in between. A change of a guest reads the guest first, and
  decides on what it read whether the address changes; it writes later. Every write
  uses an instant its caller read earlier, so at most the present one.
*/
module InvitationLifecycle {
  import opened Common
  import opened Invitation

  type Request = nat

  /** `None`: the guest has no address. */
  type Address = Option<string>

  /** What a request that changes a guest has read of them. */
  datatype Reading = Reading(guest: Id, address: Address)

  /**
    `sending` holds the guests whose send has ended the old tokens and not yet created
    the new one; `mailedTo` is, for each row, the guest's address when it was created.
  */
  datatype State = State(
    rows: seq<Invitation>, now: Time, sending: multiset<Id>,
    addresses: map<Id, Address>, mailedTo: seq<Address>, readings: map<Request, Reading>)

  datatype Step =
    | Tick(ms: nat)
    | SendExpires(guest: Id, at: Time)
    | SendCreates(guest: Id, at: Time)
    | SendFails(guest: Id)
    | GuestAppears(guest: Id, address: Address)
    | ReadsGuest(request: Request, guest: Id)
    | WritesGuest(request: Request, address: Address, at: Time)
    | GivesUp(request: Request)
    | Write(op: RowOp)

  /** A sole row operation, made with an instant already past. */
  predicate Timely(op: RowOp, now: Time) {
    (op.Expire? || op.ExpireLiveOf? || op.MarkResponded?) ==> op.at <= now
  }

  predicate Enabled(s: State, step: Step) {
    match step
    case Tick(_) => true
    case SendExpires(_, at) => at <= s.now
    case SendCreates(guest, at) => guest in s.sending && guest in s.addresses && at <= s.now
    case SendFails(guest) => guest in s.sending
    case GuestAppears(guest, _) => guest !in s.addresses && forall i :: 0 <= i < |s.rows| ==> s.rows[i].guest != guest
    case ReadsGuest(request, guest) => request !in s.readings && guest in s.addresses
    case WritesGuest(request, _, at) => request in s.readings && s.readings[request].guest in s.addresses && at <= s.now
    case GivesUp(request) => request in s.readings
    case Write(op) => Timely(op, s.now)
  }

  function ApplyToRows(op: RowOp, rows: seq<Invitation>): (r: seq<Invitation>) {
    seq(|rows|, i requires 0 <= i < |rows| => Apply(op, rows[i]))
  }

  function Next(s: State, step: Step): (r: State) {
    match step
    case Tick(ms) => s.(now := s.now + ms)
    case SendExpires(guest, at) =>
      s.(rows := ApplyToRows(ExpireLiveOf(guest, at), s.rows), sending := s.sending + multiset{guest})
    case SendCreates(guest, at) =>
      var created := Invitation(|s.rows|, guest, Queued, at + VALIDITY_MS, None, None);
      s.(rows := s.rows + [created], sending := s.sending - multiset{guest},
         mailedTo := s.mailedTo + [if guest in s.addresses then s.addresses[guest] else None])
    case SendFails(guest) => s.(sending := s.sending - multiset{guest})
    case GuestAppears(guest, address) => s.(addresses := s.addresses[guest := address])
    case ReadsGuest(request, guest) =>
      if guest !in s.addresses then s
      else s.(readings := s.readings[request := Reading(guest, s.addresses[guest])])
    case WritesGuest(request, address, at) =>
      if request !in s.readings then s
      else
        var read := s.readings[request];
        s.(addresses := s.addresses[read.guest := address], readings := s.readings - {request},
           rows := if address != read.address then ApplyToRows(ExpireLiveOf(read.guest, at), s.rows) else s.rows)
    case GivesUp(request) => s.(readings := s.readings - {request})
    case Write(op) => s.(rows := ApplyToRows(op, s.rows))
  }

  predicate LiveRow(s: State, i: nat, guest: Id) {
    i < |s.rows| && s.rows[i].guest == guest && s.rows[i].LiveAt(s.now)
  }

  predicate NoLive(s: State, guest: Id) {
    forall i: nat :: i < |s.rows| ==> !LiveRow(s, i, guest)
  }

  ghost predicate OneLive(s: State) {
    forall i: nat, j: nat, guest :: LiveRow(s, i, guest) && LiveRow(s, j, guest) ==> i == j
  }

  ghost predicate Inv(s: State) {
    OneLive(s) && forall guest :: guest in s.sending ==> s.sending[guest] == 1 && NoLive(s, guest)
  }

  ghost predicate Run(states: seq<State>, steps: seq<Step>) {
    && |states| == |steps| + 1 && states[0].rows == [] && states[0].sending == multiset{}
    && states[0].mailedTo == [] && states[0].readings == map[]
    && forall i :: 0 <= i < |steps| ==> Enabled(states[i], steps[i]) && states[i + 1] == Next(states[i], steps[i])
  }

  /** No send begins for a guest while another one for the same guest is half done. */
  ghost predicate NoOverlap(states: seq<State>, steps: seq<Step>)
    requires |states| == |steps| + 1
  {
    forall i :: 0 <= i < |steps| && steps[i].SendExpires? ==> steps[i].guest !in states[i].sending
  }

  // ---- rows ----------------------------------------------------------------

  /** The row keeps its identity, a dead token stays dead, and the status only advances. */
  ghost predicate RowAges(r: Invitation, now: Time, r': Invitation, now': Time) {
    && r'.id == r.id && r'.guest == r.guest && Rank(r.status) <= Rank(r'.status)
    && (!r.LiveAt(now) ==> !r'.LiveAt(now'))
  }

  lemma ExpiredRowsAreDead(s: State, guest: Id, at: Time)
    requires at <= s.now
    ensures NoLive(s.(rows := ApplyToRows(ExpireLiveOf(guest, at), s.rows)), guest)
  {
  }

  lemma StepAges(s: State, step: Step, i: nat)
    requires Enabled(s, step) && i < |s.rows|
    ensures |s.rows| <= |Next(s, step).rows| && s.now <= Next(s, step).now
    ensures RowAges(s.rows[i], s.now, Next(s, step).rows[i], Next(s, step).now)
  {
    match step
    case Write(op) => ApplyAdvances(op, s.rows[i]);
    case SendExpires(guest, at) => ApplyAdvances(ExpireLiveOf(guest, at), s.rows[i]);
    case WritesGuest(request, _, at) => ApplyAdvances(ExpireLiveOf(s.readings[request].guest, at), s.rows[i]);
    case _ =>
  }

  lemma StepKeepsInv(s: State, step: Step)
    requires Inv(s) && Enabled(s, step) && (step.SendExpires? ==> step.guest !in s.sending)
    ensures Inv(Next(s, step))
  {
    var s' := Next(s, step);
    forall i: nat, guest | LiveRow(s', i, guest) && i < |s.rows| ensures LiveRow(s, i, guest) {
      StepAges(s, step, i);
    }
    if step.SendExpires? {
      ExpiredRowsAreDead(s, step.guest, step.at);
    }
    forall guest | guest in s'.sending ensures s'.sending[guest] == 1 && NoLive(s', guest) {
      if guest in s.sending {
        assert NoLive(s, guest);
      }
    }
  }

  lemma {:induction false} RunKeepsInv(states: seq<State>, steps: seq<Step>, i: nat)
    requires Run(states, steps) && NoOverlap(states, steps) && i < |states|
    ensures Inv(states[i])
  {
    if i > 0 {
      RunKeepsInv(states, steps, i - 1);
      StepKeepsInv(states[i - 1], steps[i - 1]);
    }
  }

  /**
    In every state of a run whose sends for one guest do not overlap, a guest has
    at most one token that still opens their invitation, and none while a send
    is half done.
  */
  lemma AtMostOneLiveToken(states: seq<State>, steps: seq<Step>, i: nat, a: nat, b: nat, guest: Id)
    requires Run(states, steps) && NoOverlap(states, steps) && i < |states|
    requires LiveRow(states[i], a, guest) && LiveRow(states[i], b, guest)
    ensures a == b && guest !in states[i].sending
  {
    RunKeepsInv(states, steps, i);
    assert !NoLive(states[i], guest);
  }

  /** Along any run, overlapping or not, rows age: no token revives and no status goes back. */
  lemma {:induction false} RowsAge(states: seq<State>, steps: seq<Step>, i: nat, j: nat, k: nat)
    requires Run(states, steps) && i <= j < |states| && k < |states[i].rows|
    ensures k < |states[j].rows| && RowAges(states[i].rows[k], states[i].now, states[j].rows[k], states[j].now)
    decreases j - i
  {
    if i < j {
      RowsAge(states, steps, i, j - 1, k);
      StepAges(states[j - 1], steps[j - 1], k);
    }
  }

  /** A creation keeps "at most one" exactly when no token of the guest is live at that moment. */
  lemma CreationIsSafeExactlyWhenNoneIsLive(s: State, guest: Id, at: Time)
    requires OneLive(s) && s.now < at + VALIDITY_MS && at <= s.now && guest in s.sending
    ensures OneLive(Next(s, SendCreates(guest, at))) <==> NoLive(s, guest)
  {
    var s' := Next(s, SendCreates(guest, at));
    assert LiveRow(s', |s.rows|, guest);
    forall i: nat, g | i < |s.rows| ensures LiveRow(s', i, g) == LiveRow(s, i, g) {
    }
    if i: nat :| i < |s.rows| && LiveRow(s, i, guest) {
      assert LiveRow(s', i, guest);
    }
  }

  /** No other step makes two tokens of one guest live. */
  lemma OtherStepsKeepOneLive(s: State, step: Step)
    requires OneLive(s) && Enabled(s, step) && !step.SendCreates?
    ensures OneLive(Next(s, step))
  {
    var s' := Next(s, step);
    forall i: nat, guest | LiveRow(s', i, guest) ensures LiveRow(s, i, guest) {
      StepAges(s, step, i);
    }
  }

  /** A creation puts no live token beside another: none of the guest's is live, or the new one is born dead. */
  predicate SafeCreation(s: State, step: Step) {
    step.SendCreates? && s.now < step.at + VALIDITY_MS ==> NoLive(s, step.guest)
  }

  lemma BornDeadKeepsOneLive(s: State, guest: Id, at: Time)
    requires OneLive(s) && at + VALIDITY_MS <= s.now
    ensures OneLive(Next(s, SendCreates(guest, at)))
  {
    var s' := Next(s, SendCreates(guest, at));
    forall i: nat, g | LiveRow(s', i, g) ensures LiveRow(s, i, g) {
    }
  }

  lemma StepKeepsOneLiveExactly(s: State, step: Step)
    requires OneLive(s) && Enabled(s, step)
    ensures OneLive(Next(s, step)) <==> SafeCreation(s, step)
  {
    if !step.SendCreates? {
      OtherStepsKeepOneLive(s, step);
    } else if s.now < step.at + VALIDITY_MS {
      CreationIsSafeExactlyWhenNoneIsLive(s, step.guest, step.at);
    } else {
      BornDeadKeepsOneLive(s, step.guest, step.at);
    }
  }

  /**
    Over whole runs, overlapping or not: no guest ever has two live tokens if and
    only if every token was created at a moment when none of its guest's was live.
  */
  lemma {:induction false} OneLiveThroughoutExactlyWhen(states: seq<State>, steps: seq<Step>)
    requires Run(states, steps)
    ensures (forall i :: 0 <= i < |states| ==> OneLive(states[i])) <==>
            (forall i :: 0 <= i < |steps| ==> SafeCreation(states[i], steps[i]))
    decreases |steps|
  {
    if steps != [] {
      var n := |steps| - 1;
      OneLiveThroughoutExactlyWhen(states[..n + 1], steps[..n]);
      assert forall i :: 0 <= i <= n ==> states[..n + 1][i] == states[i];
      assert forall i :: 0 <= i < n ==> steps[..n][i] == steps[i];
      assert states[n + 1] == Next(states[n], steps[n]);
      if OneLive(states[n]) { StepKeepsOneLiveExactly(states[n], steps[n]); }
    }
  }

  /** Two overlapping sends: both end the old tokens, then both create one, and both are live. */
  lemma OverlappingSendsLeaveTwo(now: Time, guest: Id) returns (states: seq<State>, steps: seq<Step>)
    ensures Run(states, steps) && !NoOverlap(states, steps) && !OneLive(states[|steps|])
  {
    var s0 := State([], now, multiset{}, map[guest := None], [], map[]);
    steps := [SendExpires(guest, now), SendExpires(guest, now), SendCreates(guest, now), SendCreates(guest, now)];
    var s1 := Next(s0, steps[0]);
    var s2 := Next(s1, steps[1]);
    var s3 := Next(s2, steps[2]);
    var s4 := Next(s3, steps[3]);
    states := [s0, s1, s2, s3, s4];
    assert steps[1].SendExpires? && steps[1].guest in states[1].sending;
    assert LiveRow(s4, 0, guest) && LiveRow(s4, 1, guest);
  }

  // ---- changing the address ----------------------------------------------------

  /** The step writes another address than the one stored. */
  predicate ChangesAddress(s: State, step: Step)
    requires Enabled(s, step)
  {
    step.WritesGuest? && s.addresses[s.readings[step.request].guest] != step.address
  }

  /**
    Right after a change of address no token of the guest is live, if and only if
    the address written differs from the one that the request had read, or none was
    live anyway.
  */
  lemma EmailChangeKillsTokens(states: seq<State>, steps: seq<Step>, i: nat)
    requires Run(states, steps) && i < |steps| && ChangesAddress(states[i], steps[i])
    ensures var read := states[i].readings[steps[i].request];
            NoLive(states[i + 1], read.guest) <==> read.address != steps[i].address || NoLive(states[i], read.guest)
  {
    var s, step := states[i], steps[i];
    var read := s.readings[step.request];
    if read.address != step.address {
      WriteEndsLinks(s, step);
    } else {
      SameRowsSameLive(s, states[i + 1], read.guest);
    }
  }

  lemma SameRowsSameLive(s: State, s': State, guest: Id)
    requires s'.rows == s.rows && s'.now == s.now
    ensures NoLive(s', guest) <==> NoLive(s, guest)
  {
    assert forall k: nat :: LiveRow(s', k, guest) <==> LiveRow(s, k, guest);
  }

  /** Whoever holds a live token got it at the guest's present address. */
  ghost predicate LinksFollow(s: State) {
    && |s.mailedTo| == |s.rows|
    && forall i: nat, guest :: LiveRow(s, i, guest) ==> guest in s.addresses && s.mailedTo[i] == s.addresses[guest]
  }

  /** A write of a guest that ends the live tokens, changes no address, or finds none live. */
  predicate SafeUpdate(s: State, step: Step)
    requires Enabled(s, step)
  {
    ChangesAddress(s, step) ==>
      var read := s.readings[step.request];
      read.address != step.address || NoLive(s, read.guest)
  }

  lemma WriteEndsLinks(s: State, step: Step)
    requires Enabled(s, step) && step.WritesGuest? && s.readings[step.request].address != step.address
    ensures NoLive(Next(s, step), s.readings[step.request].guest)
  {
    var guest := s.readings[step.request].guest;
    ExpiredRowsAreDead(s, guest, step.at);
    var ended := s.(rows := ApplyToRows(ExpireLiveOf(guest, step.at), s.rows));
    forall k: nat | k < |s.rows| ensures !LiveRow(Next(s, step), k, guest) {
      assert !LiveRow(ended, k, guest);
    }
  }

  lemma OtherStepsKeepLinks(s: State, step: Step)
    requires LinksFollow(s) && Enabled(s, step) && !step.WritesGuest?
    ensures LinksFollow(Next(s, step))
  {
    var s' := Next(s, step);
    forall i: nat, guest | LiveRow(s', i, guest)
      ensures guest in s'.addresses && s'.mailedTo[i] == s'.addresses[guest]
    {
      if i < |s.rows| {
        StepAges(s, step, i);
        assert LiveRow(s, i, guest);
      }
    }
  }

  /** A request that saw no change of address leaves the tokens as they are. */
  lemma BlindWriteKeepsLinksExactly(s: State, step: Step)
    requires LinksFollow(s) && Enabled(s, step)
    requires step.WritesGuest? && s.readings[step.request].address == step.address
    ensures LinksFollow(Next(s, step)) <==> SafeUpdate(s, step)
  {
    var s', guest := Next(s, step), s.readings[step.request].guest;
    assert forall i: nat, g :: LiveRow(s', i, g) <==> LiveRow(s, i, g);
    if i: nat :| i < |s.rows| && LiveRow(s, i, guest) {
      assert LiveRow(s', i, guest);
    }
  }

  lemma StepKeepsLinksExactly(s: State, step: Step)
    requires LinksFollow(s) && Enabled(s, step)
    ensures LinksFollow(Next(s, step)) <==> SafeUpdate(s, step)
  {
    if !step.WritesGuest? {
      OtherStepsKeepLinks(s, step);
    } else if s.readings[step.request].address == step.address {
      BlindWriteKeepsLinksExactly(s, step);
    } else {
      WriteEndsLinks(s, step);
      var s' := Next(s, step);
      forall i: nat, guest | LiveRow(s', i, guest)
        ensures guest in s'.addresses && s'.mailedTo[i] == s'.addresses[guest]
      {
        StepAges(s, step, i);
        assert LiveRow(s, i, guest);
      }
    }
  }

  /**
    Over whole runs, overlapping or not: a live token was always mailed to the
    guest's present address, if and only if every write that changed an address
    either was seen as a change by its request or found no token live.
  */
  lemma {:induction false} LinksFollowThroughoutExactlyWhen(states: seq<State>, steps: seq<Step>)
    requires Run(states, steps)
    ensures (forall i :: 0 <= i < |states| ==> LinksFollow(states[i])) <==>
            (forall i :: 0 <= i < |steps| ==> SafeUpdate(states[i], steps[i]))
    decreases |steps|
  {
    if steps != [] {
      var n := |steps| - 1;
      LinksFollowThroughoutExactlyWhen(states[..n + 1], steps[..n]);
      assert forall i :: 0 <= i <= n ==> states[..n + 1][i] == states[i];
      assert forall i :: 0 <= i < n ==> steps[..n][i] == steps[i];
      assert states[n + 1] == Next(states[n], steps[n]);
      if LinksFollow(states[n]) { StepKeepsLinksExactly(states[n], steps[n]); }
    }
  }

  // ---- updates that do not overlap --------------------------------------------

  /** No request reads a guest while another one that read the same guest has still to write. */
  ghost predicate UpdatesApart(states: seq<State>, steps: seq<Step>)
    requires |states| == |steps| + 1
  {
    forall i :: 0 <= i < |steps| && steps[i].ReadsGuest? ==> NobodyReads(states[i], steps[i].guest)
  }

  ghost predicate NobodyReads(s: State, guest: Id) {
    forall q :: q in s.readings ==> s.readings[q].guest != guest
  }

  ghost predicate ReadingsFresh(s: State) {
    && (forall q :: q in s.readings ==>
          s.readings[q].guest in s.addresses && s.readings[q].address == s.addresses[s.readings[q].guest])
    && (forall p, q :: p in s.readings && q in s.readings && p != q ==> s.readings[p].guest != s.readings[q].guest)
  }

  lemma {:induction false} ApartReadingsStayFresh(states: seq<State>, steps: seq<Step>, i: nat)
    requires Run(states, steps) && UpdatesApart(states, steps) && i < |states|
    ensures ReadingsFresh(states[i])
  {
    if i > 0 {
      ApartReadingsStayFresh(states, steps, i - 1);
      assert states[i] == Next(states[i - 1], steps[i - 1]);
    }
  }

  /**
    In runs whose updates of one guest do not overlap, live tokens follow the
    address, and every change of address leaves the guest without a live one.
  */
  lemma SeparateUpdatesAreSafe(states: seq<State>, steps: seq<Step>, i: nat)
    requires Run(states, steps) && UpdatesApart(states, steps) && i < |states|
    ensures LinksFollow(states[i])
    ensures i < |steps| && ChangesAddress(states[i], steps[i]) ==>
              NoLive(states[i + 1], states[i].readings[steps[i].request].guest)
  {
    forall k | 0 <= k < |steps| ensures SafeUpdate(states[k], steps[k]) {
      ApartReadingsStayFresh(states, steps, k);
    }
    LinksFollowThroughoutExactlyWhen(states, steps);
    if i < |steps| && ChangesAddress(states[i], steps[i]) {
      ApartReadingsStayFresh(states, steps, i);
      EmailChangeKillsTokens(states, steps, i);
    }
  }

  /**
    When they do overlap: a request that sets "a" has read "a"; meanwhile another one
    sets "b" and an invitation goes to "b"; then the first one writes. The address is
    "a" again, and the token mailed to "b" opens the invitation.
  */
  lemma OverlappingUpdatesKeepALink(now: Time, guest: Id) returns (states: seq<State>, steps: seq<Step>)
    ensures Run(states, steps) && !UpdatesApart(states, steps) && |steps| > 0
    ensures ChangesAddress(states[|steps| - 1], steps[|steps| - 1])
    ensures var last := states[|steps|];
            && LiveRow(last, 0, guest) && last.mailedTo == [Some("b")]
            && guest in last.addresses && last.addresses[guest] == Some("a")
  {
    var a, b := Some("a"), Some("b");
    assert a != b by { assert "a"[0] != "b"[0]; }
    var token := Invitation(0, guest, Queued, now + VALIDITY_MS, None, None);
    var s0 := State([], now, multiset{}, map[guest := a], [], map[]);
    var s1 := s0.(readings := map[1 := Reading(guest, a)]);
    var s2 := s0.(readings := map[1 := Reading(guest, a), 2 := Reading(guest, a)]);
    var s3 := s1.(addresses := map[guest := b]);
    var s4 := s3.(sending := multiset{guest});
    var s5 := s3.(rows := [token], mailedTo := [b]);
    var s6 := State([token], now, multiset{}, map[guest := a], [b], map[]);
    steps := [ReadsGuest(1, guest), ReadsGuest(2, guest), WritesGuest(2, b, now),
              SendExpires(guest, now), SendCreates(guest, now), WritesGuest(1, a, now)];
    states := [s0, s1, s2, s3, s4, s5, s6];
    TwoRead(s0, s1, s2, s3, guest, a, b);
    SentBetween(s3, s4, s5, guest, b, token);
    assert Next(s5, steps[5]) == s6 by { assert s5.readings - {1} == map[]; }
    assert LiveRow(s6, 0, guest);
    assert steps[1].ReadsGuest? && 1 in states[1].readings && states[1].readings[1].guest == guest;
  }

  lemma TwoRead(s0: State, s1: State, s2: State, s3: State, guest: Id, a: Address, b: Address)
    requires a != b && s0.rows == [] && s0.addresses == map[guest := a] && s0.readings == map[]
    requires s1 == s0.(readings := map[1 := Reading(guest, a)])
    requires s2 == s0.(readings := map[1 := Reading(guest, a), 2 := Reading(guest, a)])
    requires s3 == s1.(addresses := map[guest := b])
    ensures Enabled(s0, ReadsGuest(1, guest)) && Next(s0, ReadsGuest(1, guest)) == s1
    ensures Enabled(s1, ReadsGuest(2, guest)) && Next(s1, ReadsGuest(2, guest)) == s2
    ensures Enabled(s2, WritesGuest(2, b, s0.now)) && Next(s2, WritesGuest(2, b, s0.now)) == s3
  {
    assert s2.readings - {2} == s1.readings;
    assert s2.addresses[guest := b] == map[guest := b];
  }

  lemma SentBetween(s3: State, s4: State, s5: State, guest: Id, b: Address, token: Invitation)
    requires s3.rows == [] && s3.mailedTo == [] && s3.sending == multiset{} && s3.addresses == map[guest := b]
    requires token == Invitation(0, guest, Queued, s3.now + VALIDITY_MS, None, None)
    requires s4 == s3.(sending := multiset{guest}) && s5 == s3.(rows := [token], mailedTo := [b])
    ensures Enabled(s3, SendExpires(guest, s3.now)) && Next(s3, SendExpires(guest, s3.now)) == s4
    ensures Enabled(s4, SendCreates(guest, s3.now)) && Next(s4, SendCreates(guest, s3.now)) == s5
  {
    assert s4.sending - multiset{guest} == multiset{};
  }
}
