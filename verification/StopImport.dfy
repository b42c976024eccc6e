/**
  Telling every segment of a cluster to stop importing: messages are sent to many segments at a time, each
  under its segment's lock, and the answers are taken as they come.
 */
module StopImport {

  // Messages in flight to one server.
  const THRESHOLD := 32

  // A segment has not been told, has been told, or has answered.
  datatype Status = Unsent | Waiting | Answered

  // The segments of a server (or of any, if `group` is negative) that have one status.
  ghost function Tally(sent: seq<Status>, groups: seq<nat>, group: int, status: Status): nat
    requires |groups| == |sent|
  {
    if sent == [] then 0
    else
      var n := |sent| - 1;
      Tally(sent[..n], groups[..n], group, status) + if sent[n] == status && (group < 0 || groups[n] == group) then 1
        else 0
  }

  lemma {:induction false} TallyChanged(sent: seq<Status>, groups: seq<nat>, group: int, status: Status, s: nat,
                                        to: Status)
    requires |groups| == |sent| && s < |sent| && sent[s] != to
    ensures Tally(sent[s := to], groups, group, status) - Tally(sent, groups, group, status) ==
            if group >= 0 && groups[s] != group then 0
              else (if status == to then 1 else 0) - (if status == sent[s] then 1 else 0)
  {
    var n := |sent| - 1;
    var sent' := sent[s := to];
    if s == n {
      assert sent'[..n] == sent[..n];
    } else {
      assert sent'[..n] == sent[..n][s := to];
      TallyChanged(sent[..n], groups[..n], group, status, s, to);
    }
  }

  lemma {:induction false} TallyNone(sent: seq<Status>, groups: seq<nat>, group: int, status: Status)
    requires |groups| == |sent|
    ensures Tally(sent, groups, group, status) == 0 <==>
      forall s :: 0 <= s < |sent| && (group < 0 || groups[s] == group) ==> sent[s] != status
  {
    if sent != [] {
      var n := |sent| - 1;
      TallyNone(sent[..n], groups[..n], group, status);
      if sent[n] == status && (group < 0 || groups[n] == group) {
      } else {
        assert forall s :: 0 <= s < n ==> sent[..n][s] == sent[s] && groups[..n][s] == groups[s];
      }
    }
  }

  lemma {:induction false} TallyAll(sent: seq<Status>, groups: seq<nat>)
    requires |groups| == |sent|
    ensures Tally(sent, groups, -1, Unsent) + Tally(sent, groups, -1, Waiting) + Tally(sent, groups, -1, Answered) ==
      |sent|
  {
    if sent != [] {
      TallyAll(sent[..|sent| - 1], groups[..|sent| - 1]);
    }
  }

  // The counters agree with the statuses, and no server is asked too much.
  ghost predicate Counts(sent: seq<Status>, groups: seq<nat>, working: seq<nat>, waiting: nat, done: nat)
    requires |groups| == |sent|
  {
    && (forall s :: 0 <= s < |groups| ==> groups[s] < |working|)
    && waiting == Tally(sent, groups, -1, Waiting)
    && done == Tally(sent, groups, -1, Answered)
    && (forall g :: 0 <= g < |working| ==> working[g] == Tally(sent, groups, g, Waiting) && working[g] <= THRESHOLD)
  }

  lemma CountsSent(sent: seq<Status>, groups: seq<nat>, working: seq<nat>, waiting: nat, done: nat, s: nat)
    requires |groups| == |sent| && Counts(sent, groups, working, waiting, done)
    requires s < |sent| && sent[s] == Unsent && groups[s] < |working| && working[groups[s]] < THRESHOLD
    ensures Counts(sent[s := Waiting], groups, working[groups[s] := working[groups[s]] + 1], waiting + 1, done)
  {
    TallyChanged(sent, groups, -1, Waiting, s, Waiting);
    TallyChanged(sent, groups, -1, Answered, s, Waiting);
    forall g | 0 <= g < |working|
      ensures Tally(sent[s := Waiting], groups, g, Waiting) == Tally(sent, groups, g, Waiting) + if g ==
        groups[s] then 1 else 0
    {
      TallyChanged(sent, groups, g, Waiting, s, Waiting);
    }
  }

  lemma CountsAnswered(sent: seq<Status>, groups: seq<nat>, working: seq<nat>, waiting: nat, done: nat, s: nat)
    requires |groups| == |sent| && Counts(sent, groups, working, waiting, done)
    requires s < |sent| && sent[s] == Waiting
    ensures waiting > 0 && groups[s] < |working| && working[groups[s]] > 0
    ensures Counts(sent[s := Answered], groups, working[groups[s] := working[groups[s]] - 1], waiting - 1, done + 1)
  {
    TallyChanged(sent, groups, -1, Waiting, s, Answered);
    TallyChanged(sent, groups, -1, Answered, s, Answered);
    forall g | 0 <= g < |working|
      ensures Tally(sent[s := Answered], groups, g, Waiting) == Tally(sent, groups, g, Waiting) - if g ==
        groups[s] then 1 else 0
    {
      TallyChanged(sent, groups, g, Waiting, s, Answered);
    }
  }

  // Each segment that was told appears once in the log, and each that answered once.
  ghost predicate Logged(sent: seq<Status>, told: seq<nat>, heard: seq<nat>) {
    && (forall s: nat {:trigger multiset(told)[s]} ::
          multiset(told)[s] == if s < |sent| && sent[s] != Unsent then 1 else 0)
    && (forall s: nat {:trigger multiset(heard)[s]} ::
          multiset(heard)[s] == if s < |sent| && sent[s] == Answered then 1 else 0)
  }

  lemma LoggedTold(sent: seq<Status>, told: seq<nat>, heard: seq<nat>, s: nat)
    requires Logged(sent, told, heard) && s < |sent| && sent[s] == Unsent
    ensures Logged(sent[s := Waiting], told + [s], heard)
  {
  }

  lemma LoggedHeard(sent: seq<Status>, told: seq<nat>, heard: seq<nat>, s: nat)
    requires Logged(sent, told, heard) && s < |sent| && sent[s] == Waiting
    ensures Logged(sent[s := Answered], told, heard + [s])
  {
  }

  class Run {
    const groups: seq<nat>      // the server of each segment
    const servers: nat
    var sent: seq<Status>
    var working: seq<nat>       // messages in flight, by server
    var waiting: nat
    var done: nat
    var held: set<nat>          // the segment locks this thread holds
    ghost var told: seq<nat>    // the segments messages were sent to, in order
    ghost var heard: seq<nat>   // the segments answers were taken from, in order

    ghost predicate Valid()
      reads this
    {
      && |sent| == |groups| && |working| == servers
      && Counts(sent, groups, working, waiting, done)
      && (forall s :: s in held <==> 0 <= s < |sent| && sent[s] == Waiting)
      && Logged(sent, told, heard)
    }

    constructor (groups: seq<nat>, servers: nat)
      requires forall s :: 0 <= s < |groups| ==> groups[s] < servers
      ensures Valid() && this.groups == groups && this.servers == servers && sent == seq(|groups|, _ => Unsent)
      ensures held == {}
    {
      this.groups, this.servers := groups, servers;
      sent := seq(|groups|, _ => Unsent);
      working := seq(servers, _ => 0);
      waiting, done, held, told, heard := 0, 0, {}, [], [];
      new;
      TallyNone(sent, groups, -1, Waiting);
      TallyNone(sent, groups, -1, Answered);
      forall g | 0 <= g < servers
        ensures Tally(sent, groups, g, Waiting) == 0
      {
        TallyNone(sent, groups, g, Waiting);
      }
    }

    // Waits for a lock; to be safe from deadlock no other may be held.
    method Lock(s: nat)
      requires held == {}
      modifies `held
      ensures held == {s}
    {
      held := {s};
    }

    // Takes a lock if nobody else has it.
    method TryLock(s: nat, busy: bool) returns (got: bool)
      modifies `held
      ensures got == !busy && held == if got then old(held) + {s} else old(held)
    {
      got := !busy;
      if got {
        held := held + {s};
      }
    }

    // A segment may be told: its server is not asked too much, and its lock is free or can be waited for.
    ghost predicate Sendable(s: nat, busy: bool)
      reads this
      requires s < |sent| == |groups|
    {
      sent[s] == Unsent && (groups[s] < |working| ==> working[groups[s]] < THRESHOLD) && (waiting == 0 || !busy)
    }

    // Sends to one segment if that may be done. `busy` tells whether somebody else has its lock.
    method Send(s: nat, busy: bool)
      requires Valid() && s < |sent|
      modifies `sent, `working, `waiting, `held, `told
      ensures Valid() && |sent| == |old(sent)|
      ensures sent == if old(Sendable(s, busy)) then old(sent)[s := Waiting] else old(sent)
      ensures told == if old(Sendable(s, busy)) then old(told) + [s] else old(told)
      ensures waiting == old(waiting) + if old(Sendable(s, busy)) then 1 else 0
      ensures working == if old(Sendable(s, busy)) then old(working)[groups[s] := old(working)[groups[s]] + 1]
        else old(working)
      ensures old(waiting) == 0 && old(sent)[s] == Unsent ==> old(Sendable(s, busy))
    {
      hide Counts, Logged, Tally;
      ServerInRange(s);
      var group := groups[s];
      if sent[s] != Unsent || working[group] >= THRESHOLD {
        IdleServer(group);
        return;
      }
      var got := true;
      if waiting == 0 {
        NoLocks();
        Lock(s);
      } else {
        got := TryLock(s, busy);
      }
      if got {
        CountsSent(sent, groups, working, waiting, done, s);
        LoggedTold(sent, told, heard, s);
        sent := sent[s := Waiting];
        working := working[group := working[group] + 1];
        waiting := waiting + 1;
        told := told + [s];
      }
    }

    lemma ServerInRange(s: nat)
      requires Valid() && s < |sent|
      ensures groups[s] < servers
    {
    }

    lemma IdleServer(group: nat)
      requires Valid() && group < servers
      ensures waiting == 0 ==> working[group] == 0
    {
      TallyNone(sent, groups, -1, Waiting);
      TallyNone(sent, groups, group, Waiting);
    }

    lemma NoLocks()
      requires Valid() && waiting == 0
      ensures held == {}
    {
      TallyNone(sent, groups, -1, Waiting);
    }

    lemma Threshold()
      requires Valid()
      ensures forall g :: 0 <= g < servers ==> working[g] <= THRESHOLD
    {
    }

    // The inner loop: tells as many segments as it can, leaving out those whose lock is busy or whose server
    // has enough to do. Something is in flight afterwards.
    method SendAll(busy: seq<bool>)
      requires Valid() && done < |sent| && |busy| == |sent|
      modifies `sent, `working, `waiting, `held, `told
      ensures Valid() && |sent| == |old(sent)| && waiting > 0
      ensures done == old(done) && heard == old(heard)
      ensures forall s :: 0 <= s < |sent| && sent[s] == Unsent ==>
        busy[s] || (groups[s] < servers && working[groups[s]] == THRESHOLD)
    {
      hide Counts, Logged;
      for s := 0 to |sent|
        invariant Valid() && |sent| == |old(sent)|
        invariant waiting == 0 ==> forall i :: 0 <= i < s ==> sent[i] != Unsent
        invariant forall i :: 0 <= i < s && sent[i] == Unsent ==>
          busy[i] || (groups[i] < servers && working[groups[i]] >= THRESHOLD)
      {
        ServerInRange(s);
        Send(s, busy[s]);
      }
      Threshold();
      if waiting == 0 {
        SomeoneUntold();
      }
    }

    lemma SomeoneUntold()
      requires Valid() && waiting == 0 && done < |sent|
      ensures exists s :: 0 <= s < |sent| && sent[s] == Unsent
    {
      TallyNone(sent, groups, -1, Unsent);
      TallyAll(sent, groups);
    }

    // Takes the answer of a segment that has been told, and frees its lock.
    method Receive() returns (s: nat)
      requires Valid() && waiting > 0
      modifies `sent, `working, `waiting, `done, `held, `heard
      ensures Valid() && |sent| == |old(sent)| && done == old(done) + 1 && heard == old(heard) + [s]
      ensures s < |sent| && old(sent)[s] == Waiting && sent == old(sent)[s := Answered] && held == old(held) - {s}
    {
      hide Counts, Logged, Tally;
      SomeoneWaits();
      s :| s < |sent| && sent[s] == Waiting;
      ServerInRange(s);
      var group := groups[s];
      CountsAnswered(sent, groups, working, waiting, done, s);
      LoggedHeard(sent, told, heard, s);
      sent := sent[s := Answered];
      held := held - {s};
      working := working[group := working[group] - 1];
      waiting := waiting - 1;
      done := done + 1;
      heard := heard + [s];
    }

    lemma SomeoneWaits()
      requires Valid() && waiting > 0
      ensures exists s: nat :: s < |sent| && sent[s] == Waiting
    {
      TallyNone(sent, groups, -1, Waiting);
    }

    /**
      fsp_stop_import_all: whatever locks are busy and in whatever order answers arrive, it takes exactly
      one round per segment, and each segment is told once and answers once.
     */
    method StopAll() returns (rounds: nat)
      requires Valid() && |sent| > 0 && done == 0 && heard == []
      modifies this
      ensures rounds == |groups|
      ensures forall s: nat {:trigger multiset(told)[s]} :: multiset(told)[s] == if s < |groups| then 1 else 0
      ensures forall s: nat {:trigger multiset(heard)[s]} :: multiset(heard)[s] == if s < |groups| then 1 else 0
      ensures held == {} && waiting == 0
    {
      rounds := 0;
      while done != |sent|
        invariant Valid() && |sent| == |groups| && rounds == done == |heard| && done <= |sent|
        decreases |sent| - done
      {
        assert |seq(|sent|, _ => false)| == |sent|;
        var busy: seq<bool> :| |busy| == |sent|;
        SendAll(busy);
        TallyAll(sent, groups);
        var _ := Receive();
        TallyAll(sent, groups);
        rounds := rounds + 1;
      }
      AllAnswered();
    }

    lemma AllAnswered()
      requires Valid() && done == |sent|
      ensures waiting == 0 && held == {} && forall s :: 0 <= s < |sent| ==> sent[s] == Answered
    {
      TallyAll(sent, groups);
      TallyNone(sent, groups, -1, Waiting);
      TallyNone(sent, groups, -1, Unsent);
    }
  }
}
