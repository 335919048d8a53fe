/**
 The event feed as a step relation: any number of subscribers, unsubscribers and senders,
 interleaved at every point where one of them gives up a lock or waits on a channel.
 */
module Feeds {
  import opened CaseLists

  datatype Lock = Free | HeldBySend | HeldByRemover(ch: Chan)

  /** Where a running Send stands: before merging the inbox, on the fast path, or in the select. */
  datatype Phase = Merging | Trying(i: nat) | Selecting

  /**
   A Send in progress. active counts the cases not served yet, slot 0 included; nsent
   counts deliveries one by one. The sets record the cases it started with, the cases that
   got the value and the cases taken out of the list since.
   */
  datatype Sending = Idle
                   | Sending(phase: Phase, active: nat, nsent: nat, start: set<Case>, delivered: set<Case>,
                             removed: set<Case>)

  /** What a finished Send did, and the list it left behind. */
  datatype Report = Report(nsent: nat, start: set<Case>, delivered: set<Case>, removed: set<Case>, left: seq<Case>)

  /**
   live: channels of subscriptions whose case is still in a list; removing: channels of
   unsubscribers that missed the inbox and wait to get at the send list.
   */
  datatype State = State(nextId: nat, live: multiset<Chan>, removing: multiset<Chan>, inbox: seq<Case>,
                         sendCases: seq<Case>, lock: Lock, send: Sending, reports: seq<Report>, panicked: bool)

  datatype Step = Subscribe(ch: Chan)
                | RemoveFromInbox(ch: Chan)
                | MissInbox(ch: Chan)
                | LockToRemove(ch: Chan)
                | RemoveLocked
                | LockToSend
                | MergeInbox
                | TrySend(accepted: bool)
                | EndOfTries
                | SelectSend(chosen: nat)
                | SelectRemove(ch: Chan)

  const SLOT0 := Case(0, REMOVE_SUB)

  const INITIAL := State(1, multiset{}, multiset{}, [], [SLOT0], Free, Idle, [], false)

  predicate Enabled(s: State, step: Step) {
    match step
    case Subscribe(ch) => ch != REMOVE_SUB
    case RemoveFromInbox(ch) => s.removing[ch] < s.live[ch] && FindCase(s.inbox, ch) != -1
    case MissInbox(ch) => s.removing[ch] < s.live[ch] && FindCase(s.inbox, ch) == -1
    case LockToRemove(ch) => s.lock == Free && ch in s.removing
    case RemoveLocked => s.lock.HeldByRemover?
    case LockToSend => s.lock == Free
    case MergeInbox => s.send.Sending? && s.send.phase == Merging
    case TrySend(_) => s.send.Sending? && s.send.phase.Trying? && s.send.phase.i < s.send.active <= |s.sendCases|
    case EndOfTries => s.send.Sending? && s.send.phase.Trying? && s.send.active <= s.send.phase.i
    case SelectSend(chosen) =>
      s.send.Sending? && s.send.phase.Selecting? && 1 <= chosen < s.send.active <= |s.sendCases|
    case SelectRemove(ch) => s.send.Sending? && s.send.phase.Selecting? && ch in s.removing
  }

  /** The books after the case at index was taken out: the active part shrinks if it was in there. */
  function BooksRemoved(x: Sending, cases: seq<Case>, index: nat): Sending
    requires x.Sending? && index < |cases|
  {
    x.(phase := Trying(1), active := if index < x.active then x.active - 1 else x.active,
       removed := x.removed + {cases[index]})
  }

  /** The books after a delivery to the case at index, which leaves the active part. */
  function BooksDelivered(x: Sending, cases: seq<Case>, index: nat, phase: Phase): Sending
    requires x.Sending? && index < x.active <= |cases|
  {
    x.(phase := phase, active := x.active - 1, nsent := x.nsent + 1, delivered := x.delivered + {cases[index]})
  }

  function Next(s: State, step: Step): State
    requires Enabled(s, step)
  {
    match step
    case Subscribe(ch) =>
      s.(nextId := s.nextId + 1, live := s.live + multiset{ch}, inbox := s.inbox + [Case(s.nextId, ch)])
    case RemoveFromInbox(ch) =>
      FindCaseFinds(s.inbox, ch);
      s.(inbox := Without(s.inbox, FindCase(s.inbox, ch)), live := s.live - multiset{ch})
    case MissInbox(ch) => s.(removing := s.removing + multiset{ch})
    case LockToRemove(ch) => s.(lock := HeldByRemover(ch))
    case RemoveLocked =>
      var ch, index := s.lock.ch, FindCase(s.sendCases, s.lock.ch);
      FindCaseFinds(s.sendCases, ch);
      if index == -1 then s.(panicked := true)
      else s.(sendCases := Without(s.sendCases, index), lock := Free,
              live := s.live - multiset{ch}, removing := s.removing - multiset{ch})
    case LockToSend => s.(lock := HeldBySend, send := Sending(Merging, 0, 0, {}, {}, {}))
    case MergeInbox =>
      var cases := s.sendCases + s.inbox;
      s.(inbox := [], sendCases := cases,
         send := s.send.(phase := Trying(1), active := |cases|, start := set c | c in cases && c != SLOT0))
    case TrySend(accepted) =>
      if accepted then
        s.(sendCases := Deactivated(s.sendCases, s.send.active, s.send.phase.i),
           send := BooksDelivered(s.send, s.sendCases, s.send.phase.i, s.send.phase))
      else s.(send := s.send.(phase := Trying(s.send.phase.i + 1)))
    case EndOfTries =>
      if s.send.active == 1 then
        s.(lock := Free, send := Idle,
           reports := s.reports + [Report(s.send.nsent, s.send.start, s.send.delivered, s.send.removed, s.sendCases)])
      else s.(send := s.send.(phase := Selecting))
    case SelectSend(chosen) =>
      s.(sendCases := Deactivated(s.sendCases, s.send.active, chosen),
         send := BooksDelivered(s.send, s.sendCases, chosen, Trying(1)))
    case SelectRemove(ch) =>
      var index := FindCase(s.sendCases, ch);
      FindCaseFinds(s.sendCases, ch);
      if index == -1 then s.(panicked := true)
      else s.(sendCases := Without(s.sendCases, index), send := BooksRemoved(s.send, s.sendCases, index),
              live := s.live - multiset{ch}, removing := s.removing - multiset{ch})
  }

  /** No two cases share an id. */
  ghost predicate Distinct(cs: seq<Case>) {
    forall i, j | 0 <= i < j < |cs| :: cs[i].id != cs[j].id
  }

  /**
   The promise of Send: every case it started with that was not removed meanwhile got the
   value, only such cases did, none twice (as many deliveries as served cases), and the
   list keeps slot 0 and exactly the cases not removed.
   */
  ghost predicate Good(r: Report) {
    && r.start - r.removed <= r.delivered <= r.start && r.removed <= r.start
    && r.nsent == |r.delivered|
    && |r.left| >= 1 && r.left[0] == SLOT0 && Distinct(r.left)
    && (forall c :: c in r.left <==> c == SLOT0 || (c in r.start && c !in r.removed))
  }

  /** Slot 0 holds the removal channel; the lists hold one case per live subscription. */
  ghost predicate ListsOk(live: multiset<Chan>, removing: multiset<Chan>, inbox: seq<Case>, cases: seq<Case>) {
    && |cases| >= 1 && cases[0] == SLOT0 && REMOVE_SUB !in live
    && (forall ch | ch != REMOVE_SUB :: live[ch] == Count(inbox, ch) + Count(cases, ch))
    && (forall ch :: removing[ch] <= live[ch] && (ch != REMOVE_SUB ==> removing[ch] <= Count(cases, ch)))
  }

  /** Ids are unique across both lists and below nextId. */
  ghost predicate IdsOk(inbox: seq<Case>, cases: seq<Case>, nextId: nat) {
    && Distinct(inbox) && Distinct(cases) && nextId > 0
    && (forall i | 0 <= i < |inbox| :: 0 < inbox[i].id < nextId)
    && (forall i | 0 <= i < |cases| :: cases[i].id < nextId)
    && (forall i, j | 0 <= i < |inbox| && 0 <= j < |cases| :: inbox[i].id != cases[j].id)
  }

  /** The books of a running Send: served cases sit behind the active part of the list. */
  ghost predicate BooksOk(x: Sending, cases: seq<Case>)
    requires x.Sending?
  {
    && 1 <= x.active <= |cases|
    && (x.phase.Trying? ==> x.phase.i >= 1)
    && (x.phase.Selecting? ==> x.active > 1)
    && (forall k | 1 <= k < x.active :: cases[k] !in x.delivered)
    && (forall k | x.active <= k < |cases| :: cases[k] in x.delivered)
    && (forall k | 1 <= k < |cases| :: cases[k] in x.start && cases[k] !in x.removed)
    && (forall c | c in x.start :: c != SLOT0 && (c in x.removed || c in cases))
    && x.delivered <= x.start && x.removed <= x.start
    && x.nsent == |x.delivered|
  }

  ghost predicate SendOk(x: Sending, lock: Lock, cases: seq<Case>) {
    && (x.Idle? <==> lock != HeldBySend)
    && (x.Sending? ==>
          if x.phase != Merging then BooksOk(x, cases)
          else x.nsent == 0 && x.delivered == x.removed == {})
  }

  ghost predicate Inv(s: State) {
    && !s.panicked
    && ListsOk(s.live, s.removing, s.inbox, s.sendCases)
    && (s.lock.HeldByRemover? ==> s.lock.ch in s.removing)
    && IdsOk(s.inbox, s.sendCases, s.nextId)
    && SendOk(s.send, s.lock, s.sendCases)
    && forall i | 0 <= i < |s.reports| :: Good(s.reports[i])
  }

  lemma InitialOk()
    ensures Inv(INITIAL)
  {
  }

  /** An unsubscriber that may delete from the send list finds its channel there, above slot 0. */
  lemma LookupSucceeds(live: multiset<Chan>, removing: multiset<Chan>, inbox: seq<Case>, cases: seq<Case>, ch: Chan)
    requires ListsOk(live, removing, inbox, cases) && ch in removing
    ensures ch != REMOVE_SUB && 1 <= FindCase(cases, ch) < |cases| && cases[FindCase(cases, ch)].ch == ch
  {
    CountPositive(cases, ch);
    FindCaseFinds(cases, ch);
  }

  lemma SubscribeKeeps(s: State, ch: Chan)
    requires Inv(s) && ch != REMOVE_SUB
    ensures Inv(Next(s, Subscribe(ch)))
  {
    ListsAfterSubscribe(s.live, s.removing, s.inbox, s.sendCases, Case(s.nextId, ch));
    IdsAfterSubscribe(s.inbox, s.sendCases, s.nextId, Case(s.nextId, ch));
  }

  lemma ListsAfterSubscribe(live: multiset<Chan>, removing: multiset<Chan>, inbox: seq<Case>, cases: seq<Case>, c: Case)
    requires ListsOk(live, removing, inbox, cases) && c.ch != REMOVE_SUB
    ensures ListsOk(live + multiset{c.ch}, removing, inbox + [c], cases)
  {
    forall x ensures Count(inbox + [c], x) == Count(inbox, x) + if x == c.ch then 1 else 0 {
      assert (inbox + [c])[..|inbox|] == inbox;
    }
  }

  lemma IdsAfterSubscribe(inbox: seq<Case>, cases: seq<Case>, nextId: nat, c: Case)
    requires IdsOk(inbox, cases, nextId) && c.id == nextId
    ensures IdsOk(inbox + [c], cases, nextId + 1)
  {
  }

  lemma InboxRemovalKeeps(s: State, ch: Chan)
    requires Inv(s) && Enabled(s, RemoveFromInbox(ch))
    ensures Inv(Next(s, RemoveFromInbox(ch)))
  {
    FindCaseFinds(s.inbox, ch);
    var i := FindCase(s.inbox, ch);
    ListsAfterInboxRemoval(s.live, s.removing, s.inbox, s.sendCases, ch, i);
    IdsAfterInboxRemoval(s.inbox, s.sendCases, s.nextId, i);
  }

  /** Removing a channel's case from the inbox, by an unsubscriber other than those already waiting. */
  lemma ListsAfterInboxRemoval(live: multiset<Chan>, removing: multiset<Chan>, inbox: seq<Case>, cases: seq<Case>,
                               ch: Chan, i: nat)
    requires ListsOk(live, removing, inbox, cases) && removing[ch] < live[ch] && i < |inbox| && inbox[i].ch == ch
    ensures ListsOk(live - multiset{ch}, removing, Without(inbox, i), cases)
  {
    forall x { CountWithout(inbox, i, x); }
  }

  lemma IdsAfterInboxRemoval(inbox: seq<Case>, cases: seq<Case>, nextId: nat, i: nat)
    requires IdsOk(inbox, cases, nextId) && i < |inbox|
    ensures IdsOk(Without(inbox, i), cases, nextId)
  {
    var rest := Without(inbox, i);
    assert forall k | 0 <= k < |rest| :: rest[k] == inbox[if k < i then k else k + 1];
  }

  lemma MissKeeps(s: State, ch: Chan)
    requires Inv(s) && Enabled(s, MissInbox(ch))
    ensures Inv(Next(s, MissInbox(ch)))
  {
    FindCaseFinds(s.inbox, ch);
    CountPositive(s.inbox, ch);
  }

  /** Removing a channel's case from the send list, together with the unsubscriber that asked for it. */
  lemma ListsAfterRemoval(live: multiset<Chan>, removing: multiset<Chan>, inbox: seq<Case>, cases: seq<Case>, ch: Chan,
                          i: nat)
    requires ListsOk(live, removing, inbox, cases) && ch in removing && 1 <= i < |cases| && cases[i].ch == ch
    ensures ListsOk(live - multiset{ch}, removing - multiset{ch}, inbox, Without(cases, i))
  {
    forall x { CountWithout(cases, i, x); }
  }

  lemma IdsAfterRemoval(inbox: seq<Case>, cases: seq<Case>, nextId: nat, i: nat)
    requires IdsOk(inbox, cases, nextId) && i < |cases|
    ensures IdsOk(inbox, Without(cases, i), nextId)
  {
    var rest := Without(cases, i);
    assert forall k | 0 <= k < |rest| :: rest[k] == cases[if k < i then k else k + 1];
  }

  lemma LockedRemovalKeeps(s: State)
    requires Inv(s) && Enabled(s, RemoveLocked)
    ensures Inv(Next(s, RemoveLocked))
  {
    var ch := s.lock.ch;
    LookupSucceeds(s.live, s.removing, s.inbox, s.sendCases, ch);
    var i := FindCase(s.sendCases, ch);
    ListsAfterRemoval(s.live, s.removing, s.inbox, s.sendCases, ch, i);
    IdsAfterRemoval(s.inbox, s.sendCases, s.nextId, i);
  }

  lemma MergeKeeps(s: State)
    requires Inv(s) && Enabled(s, MergeInbox)
    ensures Inv(Next(s, MergeInbox))
  {
    var cases := s.sendCases + s.inbox;
    forall x { CountConcat(s.sendCases, s.inbox, x); }
    assert forall k | 1 <= k < |cases| :: cases[k].id != cases[0].id;
  }

  lemma BooksAfterDelivery(x: Sending, cases: seq<Case>, i: nat, phase: Phase)
    requires x.Sending? && BooksOk(x, cases) && Distinct(cases) && 1 <= i < x.active && phase.Trying? && phase.i >= 1
    ensures BooksOk(BooksDelivered(x, cases, i, phase), Deactivated(cases, x.active, i))
  {
    var d := Deactivated(cases, x.active, i);
    assert forall k | 0 <= k < |d| ::
        d[k] == cases[if k == i then x.active - 1 else if k == x.active - 1 then i else k];
    forall c | c in cases ensures c in d {
      KeptDeactivated(cases, x.active, i, c);
    }
  }

  lemma IdsAfterDelivery(inbox: seq<Case>, cases: seq<Case>, nextId: nat, active: nat, i: nat)
    requires IdsOk(inbox, cases, nextId) && i < active <= |cases|
    ensures IdsOk(inbox, Deactivated(cases, active, i), nextId)
  {
    var d := Deactivated(cases, active, i);
    assert forall k | 0 <= k < |d| :: d[k] == cases[if k == i then active - 1 else if k == active - 1 then i else k];
  }

  lemma DeliverKeeps(s: State, step: Step, i: nat)
    requires Inv(s) && Enabled(s, step) && (step == TrySend(true) || step.SelectSend?)
    requires i == if step.SelectSend? then step.chosen else s.send.phase.i
    ensures Inv(Next(s, step))
  {
    var phase := if step.SelectSend? then Trying(1) else s.send.phase;
    BooksAfterDelivery(s.send, s.sendCases, i, phase);
    IdsAfterDelivery(s.inbox, s.sendCases, s.nextId, s.send.active, i);
    forall x { CountDeactivated(s.sendCases, s.send.active, i, x); }
  }

  lemma BooksAfterRemoval(x: Sending, cases: seq<Case>, i: nat)
    requires x.Sending? && BooksOk(x, cases) && Distinct(cases) && 1 <= i < |cases|
    ensures BooksOk(BooksRemoved(x, cases, i), Without(cases, i))
  {
    var rest := Without(cases, i);
    assert forall k | 0 <= k < |rest| :: rest[k] == cases[if k < i then k else k + 1];
    forall c | c in cases && c != cases[i] ensures c in rest {
      KeptWithout(cases, i, c);
    }
  }

  lemma SelectRemovalKeeps(s: State, ch: Chan)
    requires Inv(s) && Enabled(s, SelectRemove(ch))
    ensures Inv(Next(s, SelectRemove(ch)))
  {
    LookupSucceeds(s.live, s.removing, s.inbox, s.sendCases, ch);
    var i := FindCase(s.sendCases, ch);
    ListsAfterRemoval(s.live, s.removing, s.inbox, s.sendCases, ch, i);
    IdsAfterRemoval(s.inbox, s.sendCases, s.nextId, i);
    BooksAfterRemoval(s.send, s.sendCases, i);
  }

  lemma EndKeeps(s: State)
    requires Inv(s) && Enabled(s, EndOfTries)
    ensures Inv(Next(s, EndOfTries))
  {
    if s.send.active == 1 {
      var x := s.send;
      assert Good(Report(x.nsent, x.start, x.delivered, x.removed, s.sendCases));
    }
  }

  /** Every step of every participant keeps the invariant. */
  lemma StepKeepsInv(s: State, step: Step)
    requires Inv(s) && Enabled(s, step)
    ensures Inv(Next(s, step))
  {
    match step
    case Subscribe(ch) => SubscribeKeeps(s, ch);
    case RemoveFromInbox(ch) => InboxRemovalKeeps(s, ch);
    case MissInbox(ch) => MissKeeps(s, ch);
    case LockToRemove(_) =>
    case RemoveLocked => LockedRemovalKeeps(s);
    case LockToSend =>
    case MergeInbox => MergeKeeps(s);
    case TrySend(accepted) =>
      if accepted {
        DeliverKeeps(s, step, s.send.phase.i);
      }
    case EndOfTries => EndKeeps(s);
    case SelectSend(chosen) => DeliverKeeps(s, step, chosen);
    case SelectRemove(ch) => SelectRemovalKeeps(s, ch);
  }

  /** The cases of both lists. */
  ghost function Listed(s: State): multiset<Case> {
    multiset(s.inbox) + multiset(s.sendCases)
  }

  /** The case an unsubscriber's step takes out: the first of its channel, in the list it looks at. */
  ghost function Target(s: State, step: Step): (c: Case)
    requires Inv(s) && Enabled(s, step) && (step.RemoveFromInbox? || step.RemoveLocked? || step.SelectRemove?)
    ensures step.RemoveFromInbox? ==> c.ch == step.ch && c in s.inbox
    ensures step.SelectRemove? ==> c.ch == step.ch && c in s.sendCases && c != SLOT0
    ensures step.RemoveLocked? ==> c.ch == s.lock.ch && c in s.sendCases && c != SLOT0
  {
    match step
    case RemoveFromInbox(ch) =>
      FindCaseFinds(s.inbox, ch);
      s.inbox[FindCase(s.inbox, ch)]
    case RemoveLocked =>
      LookupSucceeds(s.live, s.removing, s.inbox, s.sendCases, s.lock.ch);
      s.sendCases[FindCase(s.sendCases, s.lock.ch)]
    case SelectRemove(ch) =>
      LookupSucceeds(s.live, s.removing, s.inbox, s.sendCases, ch);
      s.sendCases[FindCase(s.sendCases, ch)]
  }

  /**
   What each step does to the lists. Subscribing puts a new case into the inbox, unsubscribing
   takes one case of its channel out, merging empties the inbox into the send list, and no
   other step adds or drops a case.
   */
  lemma StepMovesCases(s: State, step: Step)
    requires Inv(s) && Enabled(s, step)
    ensures var n := Next(s, step);
            match step
            case Subscribe(ch) =>
              var c := Case(s.nextId, ch);
              c !in Listed(s) && n.inbox == s.inbox + [c] && n.sendCases == s.sendCases
            case RemoveFromInbox(_) =>
              && multiset(n.inbox) + multiset{Target(s, step)} == multiset(s.inbox) && n.sendCases == s.sendCases
            case RemoveLocked =>
              && multiset(n.sendCases) + multiset{Target(s, step)} == multiset(s.sendCases) && n.inbox == s.inbox
            case SelectRemove(_) =>
              && multiset(n.sendCases) + multiset{Target(s, step)} == multiset(s.sendCases) && n.inbox == s.inbox
            case MergeInbox => n.inbox == [] && n.sendCases == s.sendCases + s.inbox
            case _ => n.inbox == s.inbox && multiset(n.sendCases) == multiset(s.sendCases)
  {
    match step
    case Subscribe(ch) =>
    case RemoveFromInbox(ch) =>
      FindCaseFinds(s.inbox, ch);
      CasesWithout(s.inbox, FindCase(s.inbox, ch));
    case RemoveLocked =>
      LookupSucceeds(s.live, s.removing, s.inbox, s.sendCases, s.lock.ch);
      CasesWithout(s.sendCases, FindCase(s.sendCases, s.lock.ch));
    case SelectRemove(ch) =>
      LookupSucceeds(s.live, s.removing, s.inbox, s.sendCases, ch);
      CasesWithout(s.sendCases, FindCase(s.sendCases, ch));
    case TrySend(accepted) =>
      if accepted {
        CasesDeactivated(s.sendCases, s.send.active, s.send.phase.i);
      }
    case SelectSend(chosen) => CasesDeactivated(s.sendCases, s.send.active, chosen);
    case _ =>
  }

  /** What each step does to the books of a send that goes on after it. */
  lemma StepKeepsBooks(s: State, step: Step)
    requires Inv(s) && Enabled(s, step) && s.send.Sending? && Next(s, step).send.Sending?
    ensures var x, y := s.send, Next(s, step).send;
            match step
            case MergeInbox =>
              && y.start == (set c | c in s.sendCases + s.inbox && c != SLOT0) && y.active == |s.sendCases + s.inbox|
              && y.nsent == 0 && y.delivered == y.removed == {}
            case TrySend(accepted) =>
              && y.start == x.start && y.removed == x.removed
              && (accepted ==> y.delivered == x.delivered + {s.sendCases[x.phase.i]} && y.nsent == x.nsent + 1)
              && (!accepted ==> y.delivered == x.delivered && y.nsent == x.nsent)
            case SelectSend(chosen) =>
              && y.start == x.start && y.removed == x.removed
              && y.delivered == x.delivered + {s.sendCases[chosen]} && y.nsent == x.nsent + 1
            case SelectRemove(_) =>
              && y.start == x.start && y.removed == x.removed + {Target(s, step)}
              && y.delivered == x.delivered && y.nsent == x.nsent
            case _ =>
              y.start == x.start && y.removed == x.removed && y.delivered == x.delivered && y.nsent == x.nsent
  {
    if step.SelectRemove? {
      LookupSucceeds(s.live, s.removing, s.inbox, s.sendCases, step.ch);
    }
  }

  /** Nobody is stuck: what a participant can do in each state. */
  lemma NobodyIsStuck(s: State, ch: Chan)
    requires Inv(s)
    ensures ch != REMOVE_SUB ==> Enabled(s, Subscribe(ch))
    ensures s.removing[ch] < s.live[ch] ==> (Enabled(s, RemoveFromInbox(ch)) <==> !Enabled(s, MissInbox(ch)))
    ensures s.lock == Free ==> Enabled(s, LockToSend) && (ch in s.removing ==> Enabled(s, LockToRemove(ch)))
    ensures s.lock.HeldByRemover? ==> Enabled(s, RemoveLocked)
    ensures s.lock == HeldBySend ==> s.send.Sending?
    ensures s.lock == HeldBySend ==>
              match s.send.phase
              case Merging => Enabled(s, MergeInbox)
              case Trying(_) => Enabled(s, EndOfTries) || (Enabled(s, TrySend(true)) && Enabled(s, TrySend(false)))
              case Selecting =>
                && s.send.active > 1 && (forall k | 1 <= k < s.send.active :: Enabled(s, SelectSend(k)))
                && (ch in s.removing ==> Enabled(s, SelectRemove(ch)))
  {
  }

  /** The state after a run of steps; a step that is not enabled is skipped. */
  ghost function Run(s: State, steps: seq<Step>): State
    decreases |steps|
  {
    if steps == [] then s
    else
      var before := Run(s, steps[..|steps| - 1]);
      if Enabled(before, steps[|steps| - 1]) then Next(before, steps[|steps| - 1]) else before
  }

  lemma {:induction false} RunKeepsInv(s: State, steps: seq<Step>)
    requires Inv(s)
    ensures Inv(Run(s, steps))
    decreases |steps|
  {
    if steps != [] {
      RunKeepsInv(s, steps[..|steps| - 1]);
      var before := Run(s, steps[..|steps| - 1]);
      if Enabled(before, steps[|steps| - 1]) {
        StepKeepsInv(before, steps[|steps| - 1]);
      }
    }
  }

  /** In every interleaving: no lookup fails, and every finished Send kept its promise. */
  lemma RunsAreSafe(steps: seq<Step>)
    ensures Inv(Run(INITIAL, steps))
  {
    InitialOk();
    RunKeepsInv(INITIAL, steps);
  }

  lemma FinishedSends(steps: seq<Step>, i: nat)
    requires i < |Run(INITIAL, steps).reports|
    ensures !Run(INITIAL, steps).panicked && Good(Run(INITIAL, steps).reports[i])
  {
    RunsAreSafe(steps);
  }

  /** A send that has merged keeps its start until it reports it. */
  lemma {:induction false} StartIsReported(m: State, steps: seq<Step>)
    requires Inv(m) && m.send.Sending? && m.send.phase != Merging
    ensures var z := Run(m, steps);
            && m.reports <= z.reports
            && (if |z.reports| == |m.reports|
                then z.send.Sending? && z.send.phase != Merging && z.send.start == m.send.start
                else z.reports[|m.reports|].start == m.send.start)
    decreases |steps|
  {
    if steps != [] {
      var last := steps[|steps| - 1];
      StartIsReported(m, steps[..|steps| - 1]);
      RunKeepsInv(m, steps[..|steps| - 1]);
      var before := Run(m, steps[..|steps| - 1]);
      if Enabled(before, last) {
        ReportsGrow(before, last);
      }
    }
  }

  /** Only the end of a send reports, and it reports that send. */
  lemma ReportsGrow(s: State, step: Step)
    requires Inv(s) && Enabled(s, step)
    ensures var n := Next(s, step);
            if step == EndOfTries && s.send.active == 1
            then
              && |n.reports| == |s.reports| + 1 && s.reports <= n.reports
              && n.reports[|s.reports|].start == s.send.start
            else n.reports == s.reports && (s.send.Sending? && s.send.phase != Merging ==>
                   n.send.Sending? && n.send.phase != Merging && n.send.start == s.send.start)
  {
    if step.SelectRemove? {
      LookupSucceeds(s.live, s.removing, s.inbox, s.sendCases, step.ch);
    }
  }

  /**
   Every subscription in either list when a send merges them gets the value by the time that
   send reports, whatever happens in between, or was removed during it. Nobody else gets it.
   */
  lemma SubscribersAreServed(before: seq<Step>, after: seq<Step>)
    requires Enabled(Run(INITIAL, before), MergeInbox)
    ensures var s := Run(INITIAL, before);
            var z := Run(Next(s, MergeInbox), after);
            |z.reports| > |s.reports| ==>
              var r := z.reports[|s.reports|];
              && (forall c | c in s.inbox || (c in s.sendCases && c != SLOT0) :: c in r.delivered || c in r.removed)
              && (forall c | c in r.delivered :: c in s.inbox || (c in s.sendCases && c != SLOT0))
  {
    var s := Run(INITIAL, before);
    RunsAreSafe(before);
    StepKeepsInv(s, MergeInbox);
    StepKeepsBooks(s, MergeInbox);
    StartIsReported(Next(s, MergeInbox), after);
    RunKeepsInv(Next(s, MergeInbox), after);
    var z := Run(Next(s, MergeInbox), after);
    if |z.reports| > |s.reports| {
      assert Good(z.reports[|s.reports|]);
    }
  }

  lemma RunSnoc(s: State, steps: seq<Step>, step: Step)
    ensures var y := Run(s, steps);
            Run(s, steps + [step]) == if Enabled(y, step) then Next(y, step) else y
  {
    assert (steps + [step])[..|steps|] == steps;
  }

  /** So many tries in a row, all accepted. */
  function Tries(n: nat): seq<Step> {
    if n == 0 then [] else Tries(n - 1) + [TrySend(true)]
  }

  lemma {:induction false} TriesServe(m: State, n: nat)
    requires Inv(m) && m.send.Sending? && m.send.phase == Trying(1) && n < m.send.active
    ensures var z := Run(m, Tries(n));
            && z.send.Sending? && z.send.phase == Trying(1) && z.send.active == m.send.active - n
            && z.send.start == m.send.start && z.send.removed == m.send.removed && z.reports == m.reports
    decreases n
  {
    if n > 0 {
      var y := Run(m, Tries(n - 1));
      TriesServe(m, n - 1);
      RunKeepsInv(m, Tries(n - 1));
      TryServes(y);
      RunSnoc(m, Tries(n - 1), TrySend(true));
    }
  }

  lemma TryServes(s: State)
    requires Inv(s) && s.send.Sending? && s.send.phase == Trying(1) && s.send.active > 1
    ensures Enabled(s, TrySend(true)) &&
            var n := Next(s, TrySend(true));
            && n.send.Sending? && n.send.phase == Trying(1) && n.send.active == s.send.active - 1
            && n.send.start == s.send.start && n.send.removed == s.send.removed && n.reports == s.reports
  {
  }

  /** A send that all its subscribers are ready for serves them all, one try each, and ends. */
  lemma ReadySend(m: State)
    requires Inv(m) && m.send.Sending? && m.send.phase == Trying(1) && m.send.removed == {}
    ensures var z := Run(m, Tries(m.send.active - 1) + [EndOfTries]);
            && z.send == Idle && z.lock == Free && |z.reports| == |m.reports| + 1
            && z.reports[|m.reports|].delivered == z.reports[|m.reports|].start == m.send.start
  {
    var tries := Tries(m.send.active - 1);
    TriesServe(m, m.send.active - 1);
    RunKeepsInv(m, tries);
    RunSnoc(m, tries, EndOfTries);
    var y, z := Run(m, tries), Run(m, tries + [EndOfTries]);
    EndKeeps(y);
    assert z == Next(y, EndOfTries) && Good(z.reports[|m.reports|]);
  }

  /** Unserved cases plus listed cases: what a Send counts down. */
  ghost function Work(s: State): nat
    requires s.send.Sending?
  {
    s.send.active + |s.sendCases|
  }

  predicate OfSend(step: Step) {
    step.TrySend? || step.EndOfTries? || step.SelectSend? || step.SelectRemove?
  }

  /** Each delivery and each removal lowers the work; a refused try moves on to the next case instead. */
  lemma SendProgresses(s: State, step: Step)
    requires Inv(s) && Enabled(s, step) && OfSend(step)
    ensures step.SelectSend? || step.SelectRemove? || step == TrySend(true) ==>
              Next(s, step).send.Sending? && Work(Next(s, step)) < Work(s)
    ensures step == TrySend(false) ==>
              Next(s, step).send == s.send.(phase := Trying(s.send.phase.i + 1)) && s.send.phase.i < s.send.active
    ensures step.EndOfTries? ==>
              Next(s, step).send == if s.send.active == 1 then Idle else s.send.(phase := Selecting)
  {
    if step.SelectRemove? {
      LookupSucceeds(s.live, s.removing, s.inbox, s.sendCases, step.ch);
    }
  }

  /** Nobody else touches the list or the books of a running Send. */
  lemma OthersKeepWork(s: State, step: Step)
    requires Inv(s) && Enabled(s, step) && s.send.Sending? && s.send.phase != Merging && !OfSend(step)
    ensures Next(s, step).send == s.send && Next(s, step).sendCases == s.sendCases
  {
  }
}
