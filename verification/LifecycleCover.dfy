/** Who answers for a process: the record, a pending continuation, or a stop that gave up. */
module LifecycleCover {
  import opened Basics
  import opened Policies
  import opened HealthRules
  import opened LifecycleProtocol
  import opened LifecycleSafety

  /** `t` will stop `h`, is stopping it, or is the start that spawned it and has not resumed. */
  predicate Answers(t: Task, h: Handle) {
    || (t.Spawned? && t.h == h && t.gen == h.epoch)
    || (IsStop(t) && t.target == Some(h))
    || t.PlanWaiting?
  }

  ghost predicate AnsweredBy(s: System, h: Handle, k: nat) {
    k in s.tasks && Answers(s.tasks[k], h)
  }

  ghost predicate Covered(s: System, past: Past) {
    s.Running() ==>
      || s.record.value.epoch == s.cell.gen
      || s.record.value in past.gaveUp
      || s.record.value in past.forgotten
      || exists k :: AnsweredBy(s, s.record.value, k)
  }

  lemma CoverByStarts(svc: Service, s: System, past: Past, a: Action)
    requires Good(s) && Covered(s, past) && Enabled(s, a)
    requires a.EnterStart? || a.BeginSpawn? || a.Spawn? || a.StartThrows?
    ensures Covered(Next(svc, s, a), Remember(svc, past, s, a))
  {
    var t := Next(svc, s, a);
    if t.Running() {
      var h := t.record.value;
      match a
      case EnterStart(_) => KeepsAnswer(s, t, h, s.nextTask);
      case BeginSpawn(k) => KeepsAnswer(s, t, h, k);
      case Spawn(k) =>
        if s.Running() { KeepsAnswer(s, t, h, k); } else { assert AnsweredBy(t, h, k); }
      case StartThrows(k) =>
        if s.cell.gen == s.tasks[k].gen { assert AnsweredBy(t, h, s.nextTask); } else { KeepsAnswer(s, t, h, k); }
    }
  }

  /** A step that touches only task `k`, which did not answer for `h`, leaves the one that did. */
  lemma KeepsAnswer(s: System, t: System, h: Handle, k: nat)
    requires forall i :: i in s.tasks && i != k ==> i in t.tasks && t.tasks[i] == s.tasks[i]
    requires k in s.tasks ==> !Answers(s.tasks[k], h)
    ensures (exists i :: AnsweredBy(s, h, i)) ==> exists i :: AnsweredBy(t, h, i)
  {
    if i :| AnsweredBy(s, h, i) {
      assert AnsweredBy(t, h, i);
    }
  }

  /** A launch step leaves every task but its own. */
  lemma LaunchTouchesOne(svc: Service, s: System, a: Action)
    requires Good(s) && Enabled(s, a) && (a.Resume? || a.HookDone? || a.WaitOver?)
    ensures var t := Next(svc, s, a);
      && t.record == s.record && t.live == s.live
      && (t.cell.gen > s.cell.gen ==> s.nextTask in t.tasks && t.tasks[s.nextTask] == FailStop(t.record))
      && forall i :: i in s.tasks && i != a.k ==> i in t.tasks && t.tasks[i] == s.tasks[i]
  {
    assert s.nextTask !in s.tasks;
  }

  /** A start that held a process of another epoch goes on to stop it. */
  lemma LaunchStopsOther(svc: Service, s: System, a: Action, h: Handle)
    requires Good(s) && Enabled(s, a) && (a.Resume? || a.HookDone? || a.WaitOver?)
    requires s.record == Some(h) && Answers(s.tasks[a.k], h) && h.epoch != s.cell.gen
    ensures AnsweredBy(Next(svc, s, a), h, a.k)
  {
  }

  lemma CoverByLaunches(svc: Service, s: System, past: Past, a: Action)
    requires Good(s) && Covered(s, past) && Enabled(s, a)
    requires a.Resume? || a.HookDone? || a.WaitOver?
    ensures Covered(Next(svc, s, a), Remember(svc, past, s, a))
  {
    var t := Next(svc, s, a);
    LaunchTouchesOne(svc, s, a);
    if t.Running() {
      var h := t.record.value;
      if t.cell.gen > s.cell.gen {
        assert AnsweredBy(t, h, s.nextTask);
      } else if h.epoch != s.cell.gen {
        if Answers(s.tasks[a.k], h) {
          LaunchStopsOther(svc, s, a, h);
        } else {
          KeepsAnswer(s, t, h, a.k);
        }
      }
    }
  }

  lemma CoverByStops(svc: Service, s: System, past: Past, a: Action)
    requires Good(s) && Covered(s, past) && Enabled(s, a)
    requires StopSide(a)
    ensures Covered(Next(svc, s, a), Remember(svc, past, s, a))
  {
    var t := Next(svc, s, a);
    if t.Running() {
      var h := t.record.value;
      match a
      case FailRequested => assert AnsweredBy(t, h, s.nextTask);
      case EnterStop(_) => assert AnsweredBy(t, h, s.nextTask);
      case PlanKill(k) => assert AnsweredBy(t, h, k);
      case StopDone(k) => KeepsAnswer(s, t, h, k);
      case StopFails(k) => if s.tasks[k].target != Some(h) { KeepsAnswer(s, t, h, k); }
      case Released(k) => KeepsAnswer(s, t, h, k);
    }
  }

  lemma CoverByEvents(svc: Service, s: System, past: Past, a: Action)
    requires Good(s) && Covered(s, past) && Enabled(s, a)
    requires !StartSide(a) && !StopSide(a)
    ensures Covered(Next(svc, s, a), Remember(svc, past, s, a))
  {
    var t := Next(svc, s, a);
    if t.Running() {
      var h := t.record.value;
      assert s.record == Some(h) && h in s.live;
      if t.cell.gen > s.cell.gen && (a.DeliverExit? || a.TimerFires?) {
        assert AnsweredBy(t, h, s.nextTask);
      } else {
        KeepsAnswer(s, t, h, if a.ProbeDone? then a.k else s.nextTask);
      }
    }
  }

  /** Every live process is on record, unless a stop of another process took it off. */
  ghost predicate Tracked(s: System, past: Past) {
    forall h :: h in s.live ==> s.record == Some(h) || h in past.displaced
  }

  lemma TrackedKept(svc: Service, s: System, past: Past, a: Action)
    requires Good(s) && Tracked(s, past) && Enabled(s, a)
    ensures Tracked(Next(svc, s, a), Remember(svc, past, s, a))
  {
  }

  /**
   From a state in which every live process is on record, a step leaves one off
   the record exactly when a stop returns while a different live process holds it.
   */
  lemma LeavesUntrackedExactly(svc: Service, s: System, a: Action)
    requires Good(s) && Enabled(s, a)
    requires forall h :: h in s.live ==> s.record == Some(h)
    ensures (forall h :: h in Next(svc, s, a).live ==> Next(svc, s, a).record == Some(h))
       <==> !(a.StopDone? && s.tasks[a.k].target.Some? && s.record.Some? && s.record.value in s.live)
  {
    var t := Next(svc, s, a);
    if a.StopDone? && s.tasks[a.k].target.Some? && s.record.Some? && s.record.value in s.live {
      assert s.record.value in t.live && t.record == None;
    } else {
      TrackedKept(svc, s, NoPast, a);
    }
  }

  /**
   Where a live process on record is current or answered for, forgetting the name leaves it neither
   exactly when it is current and nothing else answers for it.
   */
  lemma ForgetOrphansExactly(svc: Service, s: System)
    requires Good(s) && s.Running()
    requires s.record.value.epoch == s.cell.gen || exists k :: AnsweredBy(s, s.record.value, k)
    ensures var t := Next(svc, s, ForgetName); var h := s.record.value;
      && t.Running() && t.record == s.record
      && ((h.epoch == t.cell.gen || exists k :: AnsweredBy(t, h, k))
          <==> !(h.epoch == s.cell.gen && forall k :: !AnsweredBy(s, h, k)))
  {
    var t, h := Next(svc, s, ForgetName), s.record.value;
    assert forall k :: AnsweredBy(t, h, k) == AnsweredBy(s, h, k);
  }
}
