/**
 The operations lock (deploy/bin/ops_helper.py): `flock` over open file descriptions, and the check that
 an inherited descriptor owns the lock.  Other processes may act between any two system calls.
 */
module LockFile {
  import opened Results

  type Inode = nat
  type Description = nat
  datatype Descriptor = Descriptor(process: nat, number: nat)
  datatype Mode = Shared | Exclusive

  /** Descriptors refer to open file descriptions; locks belong to the descriptions. */
  datatype Kernel = Kernel(
    descriptors: map<Descriptor, Description>, inodes: map<Description, Inode>,
    held: map<Description, Mode>, path: Option<Inode>)

  // ---------------------------------------------------------------- system calls

  /** No other description has a lock on the inode that conflicts with the mode. */
  predicate Grantable(k: Kernel, d: Description, mode: Mode)
    requires d in k.inodes
  {
    forall e | e in k.held && e in k.inodes && e != d && k.inodes[e] == k.inodes[d] :: mode == Shared && k.held[e] == Shared
  }

  /** `flock(LOCK_NB)`: a refused conversion has already given up the lock that was held. */
  function Flock(k: Kernel, d: Description, mode: Mode): (Kernel, bool)
    requires d in k.inodes
  {
    if d in k.held && k.held[d] == mode then (k, true)
    else if Grantable(k, d, mode) then (k.(held := k.held[d := mode]), true)
    else (k.(held := k.held - {d}), false)
  }

  datatype Action =
    | Open(at: Descriptor, description: Description)
    | Lock(at: Descriptor, mode: Mode)
    | Unlock(at: Descriptor)
    | Close(at: Descriptor)
    | Duplicate(from: Descriptor, at: Descriptor)
    | Rename(path: Option<Inode>)

  function Closed(k: Kernel, at: Descriptor): Kernel {
    if at !in k.descriptors then k
    else
      var d, rest := k.descriptors[at], k.descriptors - {at};
      if d in rest.Values then k.(descriptors := rest)
      else k.(descriptors := rest, inodes := k.inodes - {d}, held := k.held - {d})
  }

  function Opened(k: Kernel, at: Descriptor, d: Description): Kernel {
    if k.path.None? || d in k.inodes || d in k.held || at in k.descriptors then k
    else k.(descriptors := k.descriptors[at := d], inodes := k.inodes[d := k.path.value])
  }

  function Act(k: Kernel, a: Action): Kernel {
    match a
    case Open(at, d) => Opened(k, at, d)
    case Lock(at, mode) => if at in k.descriptors && k.descriptors[at] in k.inodes then Flock(k, k.descriptors[at], mode).0 else k
    case Unlock(at) => if at in k.descriptors then k.(held := k.held - {k.descriptors[at]}) else k
    case Close(at) => Closed(k, at)
    case Duplicate(from, at) =>
      if from in k.descriptors && from != at then
        var c := Closed(k, at);
        c.(descriptors := c.descriptors[at := k.descriptors[from]])
      else k
    case Rename(path) => k.(path := path)
  }

  function ActAll(k: Kernel, actions: seq<Action>): Kernel
    decreases |actions|
  {
    if actions == [] then k else ActAll(Act(k, actions[0]), actions[1..])
  }

  // ---------------------------------------------------------------- mutual exclusion

  /** Of two descriptions with a lock on one inode, neither has it exclusively; every reference is open. */
  ghost predicate Consistent(k: Kernel) {
    && (forall d, e :: d in k.held && e in k.held && d in k.inodes && e in k.inodes && d != e && k.inodes[d] == k.inodes[e]
          ==> k.held[d] == Shared && k.held[e] == Shared)
    && (forall d :: d in k.held ==> d in k.inodes)
    && (forall at :: at in k.descriptors ==> k.descriptors[at] in k.inodes)
  }

  lemma ClosedConsistent(k: Kernel, at: Descriptor)
    requires Consistent(k)
    ensures Consistent(Closed(k, at))
  {
    if at in k.descriptors {
      var d, rest := k.descriptors[at], k.descriptors - {at};
      forall x | x in rest ensures rest[x] in rest.Values {}
    }
  }

  lemma FlockConsistent(k: Kernel, d: Description, mode: Mode)
    requires Consistent(k) && d in k.inodes
    ensures Consistent(Flock(k, d, mode).0)
  {
  }

  lemma ActConsistent(k: Kernel, a: Action)
    requires Consistent(k)
    ensures Consistent(Act(k, a))
  {
    match a {
      case Lock(at, mode) => if at in k.descriptors { FlockConsistent(k, k.descriptors[at], mode); }
      case Close(at) => ClosedConsistent(k, at);
      case Duplicate(from, at) =>
        ClosedConsistent(k, at);
        if from in k.descriptors && from != at {
          var rest := k.descriptors - {at};
          if at in k.descriptors { assert rest[from] in rest.Values; }
          assert k.descriptors[from] in Closed(k, at).inodes;
        }
      case _ =>
    }
  }

  /** In every reachable state at most one description owns the lock of an inode. */
  lemma {:induction false} AlwaysConsistent(k: Kernel, actions: seq<Action>)
    requires Consistent(k)
    ensures Consistent(ActAll(k, actions))
    decreases |actions|
  {
    if actions != [] {
      ActConsistent(k, actions[0]);
      AlwaysConsistent(Act(k, actions[0]), actions[1..]);
    }
  }

  ghost predicate Owns(k: Kernel, at: Descriptor, i: Inode) {
    at in k.descriptors && k.descriptors[at] in k.held && k.descriptors[at] in k.inodes
    && k.held[k.descriptors[at]] == Exclusive && k.inodes[k.descriptors[at]] == i
  }

  /** Two descriptors that own the lock of one inode refer to the same description. */
  lemma OneOwner(actions: seq<Action>, a: Descriptor, b: Descriptor, i: Inode)
    ensures var k := ActAll(Kernel(map[], map[], map[], None), actions);
            Owns(k, a, i) && Owns(k, b, i) ==> k.descriptors[a] == k.descriptors[b]
  {
    AlwaysConsistent(Kernel(map[], map[], map[], None), actions);
  }

  // ---------------------------------------------------------------- the check

  /** What other processes do between the system calls of the check. */
  datatype Interference = Interference(
    afterStat: seq<Action>, beforeOpen: seq<Action>, afterOpen: seq<Action>, afterProbe: seq<Action>)

  const NOTHING: Interference := Interference([], [], [], [])

  /** An action of another process; it may share descriptions with this one, but not descriptors. */
  predicate Foreign(actions: seq<Action>, process: nat) {
    forall i | 0 <= i < |actions| ::
      match actions[i]
      case Open(at, _) => at.process != process
      case Lock(at, _) => at.process != process
      case Unlock(at) => at.process != process
      case Close(at) => at.process != process
      case Duplicate(_, at) => at.process != process
      case Rename(_) => true
  }

  /**
   `validate_lock_descriptor`, when owner and mode of the file are as required: stat the path, compare the
   inherited descriptor, open a probe, and require that a shared lock on the probe is refused and that an
   exclusive one on the inherited descriptor is granted.
   */
  function Validate(k0: Kernel, own: Descriptor, probe: Descriptor, d: Description, x: Interference): (Kernel, bool) {
    if k0.path.None? then (k0, false)
    else
      var inode := k0.path.value;
      var k1 := ActAll(k0, x.afterStat);
      if own !in k1.descriptors || k1.descriptors[own] !in k1.inodes || k1.inodes[k1.descriptors[own]] != inode then (k1, false)
      else
        var k2 := ActAll(k1, x.beforeOpen);
        var k3 := Opened(k2, probe, d);
        if probe !in k3.descriptors || k3.descriptors[probe] != d || d !in k3.inodes then (k2, false)
        else if k3.inodes[d] != inode then (Closed(k3, probe), false)
        else
          var k4 := ActAll(k3, x.afterOpen);
          if d !in k4.inodes then (k4, false)
          else
            var (k5, shared) := Flock(k4, d, Shared);
            if shared then (Closed(k5.(held := k5.held - {d}), probe), false)
            else
              var k6 := ActAll(k5, x.afterProbe);
              if own !in k6.descriptors || k6.descriptors[own] !in k6.inodes then (Closed(k6, probe), false)
              else
                var (k7, owned) := Flock(k6, k6.descriptors[own], Exclusive);
                (Closed(k7, probe), owned)
  }

  /** The descriptor refers to this description of this inode. */
  predicate RefersTo(k: Kernel, at: Descriptor, d: Description, i: Inode) {
    at in k.descriptors && k.descriptors[at] == d && d in k.inodes && k.inodes[d] == i
  }

  lemma ClosedKeeps(k: Kernel, closed: Descriptor, at: Descriptor, d: Description, i: Inode)
    requires RefersTo(k, at, d, i) && closed != at
    ensures RefersTo(Closed(k, closed), at, d, i)
    ensures d in k.held ==> d in Closed(k, closed).held && Closed(k, closed).held[d] == k.held[d]
  {
    if closed in k.descriptors {
      var rest := k.descriptors - {closed};
      assert rest[at] in rest.Values;
    }
  }

  lemma ForeignActKeeps(k: Kernel, a: Action, at: Descriptor, d: Description, i: Inode)
    requires RefersTo(k, at, d, i) && Foreign([a], at.process)
    ensures RefersTo(Act(k, a), at, d, i)
  {
    assert [a][0] == a;
    match a {
      case Close(other) => ClosedKeeps(k, other, at, d, i);
      case Duplicate(from, other) => ClosedKeeps(k, other, at, d, i);
      case _ =>
    }
  }

  /** Other processes cannot change what a descriptor of this one refers to. */
  lemma {:induction false} ForeignKeeps(k: Kernel, actions: seq<Action>, at: Descriptor, d: Description, i: Inode)
    requires RefersTo(k, at, d, i) && Foreign(actions, at.process)
    ensures RefersTo(ActAll(k, actions), at, d, i)
    decreases |actions|
  {
    if actions != [] {
      assert [actions[0]][0] == actions[0];
      ForeignActKeeps(k, actions[0], at, d, i);
      assert forall n :: 0 <= n < |actions[1..]| ==> actions[1..][n] == actions[n + 1];
      ForeignKeeps(Act(k, actions[0]), actions[1..], at, d, i);
    }
  }

  ghost predicate AllForeign(x: Interference, process: nat) {
    Foreign(x.afterStat, process) && Foreign(x.beforeOpen, process) && Foreign(x.afterOpen, process) && Foreign(x.afterProbe, process)
  }

  /**
   Whatever other processes do in between, a check that succeeds ends with the description of the
   inherited descriptor holding the lock exclusively on the inode the lock path named at the start.
   */
  lemma SuccessOwnsLock(k0: Kernel, own: Descriptor, probe: Descriptor, d: Description, x: Interference)
    requires Consistent(k0) && own != probe && AllForeign(x, own.process)
    requires Validate(k0, own, probe, d, x).1
    ensures k0.path.Some? && Owns(Validate(k0, own, probe, d, x).0, own, k0.path.value)
  {
    var inode := k0.path.value;
    var k1 := ActAll(k0, x.afterStat);
    var mine := k1.descriptors[own];
    var k2 := ActAll(k1, x.beforeOpen);
    ForeignKeeps(k1, x.beforeOpen, own, mine, inode);
    var k3 := Opened(k2, probe, d);
    assert RefersTo(k3, own, mine, inode);
    var k4 := ActAll(k3, x.afterOpen);
    ForeignKeeps(k3, x.afterOpen, own, mine, inode);
    var k5 := Flock(k4, d, Shared).0;
    assert RefersTo(k5, own, mine, inode);
    var k6 := ActAll(k5, x.afterProbe);
    ForeignKeeps(k5, x.afterProbe, own, mine, inode);
    var k7 := Flock(k6, mine, Exclusive).0;
    ClosedKeeps(k7, probe, own, mine, inode);
  }

  /** Another description has the inode of this one locked exclusively. */
  ghost predicate LockedElsewhere(k: Kernel, d: Description) {
    d in k.inodes && exists e :: e in k.held && e in k.inodes && e != d && k.inodes[e] == k.inodes[d] && k.held[e] == Exclusive
  }

  lemma ProbeRefusedIff(k: Kernel, d: Description)
    requires d in k.inodes
    ensures !Flock(k, d, Shared).1 ==> LockedElsewhere(k, d)
    ensures Consistent(k) && LockedElsewhere(k, d) ==> !Flock(k, d, Shared).1
  {
  }

  lemma OpenedNames(k: Kernel, at: Descriptor, d: Description)
    requires d !in k.inodes && d in Opened(k, at, d).inodes
    ensures k.path == Some(Opened(k, at, d).inodes[d])
  {
  }

  /** The kernel when the probe is opened, and when it asks for its lock. */
  function AtOpen(k0: Kernel, x: Interference): Kernel { ActAll(ActAll(k0, x.afterStat), x.beforeOpen) }

  function AtProbe(k0: Kernel, probe: Descriptor, d: Description, x: Interference): Kernel {
    ActAll(Opened(AtOpen(k0, x), probe, d), x.afterOpen)
  }

  lemma SuccessPassed(k0: Kernel, own: Descriptor, probe: Descriptor, d: Description, x: Interference)
    requires Validate(k0, own, probe, d, x).1
    ensures k0.path.Some? && d in Opened(AtOpen(k0, x), probe, d).inodes && Opened(AtOpen(k0, x), probe, d).inodes[d] == k0.path.value
    ensures d in AtProbe(k0, probe, d, x).inodes && !Flock(AtProbe(k0, probe, d, x), d, Shared).1
  {
  }

  /**
   A check that succeeds found the lock path naming the same file when it opened its probe, and the file locked
   exclusively by another description when the probe asked.
   */
  lemma SuccessSawOneFile(k0: Kernel, own: Descriptor, probe: Descriptor, d: Description, x: Interference)
    requires Validate(k0, own, probe, d, x).1 && d !in AtOpen(k0, x).inodes
    ensures k0.path.Some? && AtOpen(k0, x).path == k0.path && LockedElsewhere(AtProbe(k0, probe, d, x), d)
  {
    SuccessPassed(k0, own, probe, d, x);
    OpenedNames(AtOpen(k0, x), probe, d);
    ProbeRefusedIff(AtProbe(k0, probe, d, x), d);
  }

  /** The kernel when the inherited descriptor is locked again. */
  function AtClaim(k0: Kernel, probe: Descriptor, d: Description, x: Interference): Kernel {
    var k := AtProbe(k0, probe, d, x);
    ActAll(if d in k.inodes then Flock(k, d, Shared).0 else k, x.afterProbe)
  }

  /** The descriptor refers to the file, and no other description has a lock on it. */
  ghost predicate MayClaim(k: Kernel, at: Descriptor, i: Inode) {
    at in k.descriptors && forall e :: e in k.held && e in k.inodes && k.inodes[e] == i ==> e == k.descriptors[at]
  }

  lemma ClaimedIff(k: Kernel, at: Descriptor, d: Description, i: Inode)
    requires Consistent(k) && RefersTo(k, at, d, i)
    ensures Flock(k, d, Exclusive).1 <==> MayClaim(k, at, i)
  {
  }

  /** Until the probe asks, the probe and the inherited descriptor refer to the file that was found. */
  lemma UntilProbe(k0: Kernel, own: Descriptor, probe: Descriptor, d: Description, x: Interference, mine: Description, i: Inode)
    requires Consistent(k0) && own.process == probe.process && own != probe && AllForeign(x, own.process)
    requires RefersTo(ActAll(k0, x.afterStat), own, mine, i) && AtOpen(k0, x).path == Some(i)
    requires d !in AtOpen(k0, x).inodes && probe !in AtOpen(k0, x).descriptors
    ensures var k := AtProbe(k0, probe, d, x); Consistent(k) && RefersTo(k, own, mine, i) && RefersTo(k, probe, d, i)
  {
    var k1, k2 := ActAll(k0, x.afterStat), AtOpen(k0, x);
    AlwaysConsistent(k0, x.afterStat);
    AlwaysConsistent(k1, x.beforeOpen);
    ForeignKeeps(k1, x.beforeOpen, own, mine, i);
    var k3 := Opened(k2, probe, d);
    ActConsistent(k2, Open(probe, d));
    assert RefersTo(k3, own, mine, i) && RefersTo(k3, probe, d, i);
    AlwaysConsistent(k3, x.afterOpen);
    ForeignKeeps(k3, x.afterOpen, own, mine, i);
    ForeignKeeps(k3, x.afterOpen, probe, d, i);
  }

  /** Whether the check gets as far as its probe. */
  ghost predicate Reached(k0: Kernel, own: Descriptor, x: Interference) {
    && k0.path.Some? && AtOpen(k0, x).path == k0.path
    && var k1 := ActAll(k0, x.afterStat);
       own in k1.descriptors && RefersTo(k1, own, k1.descriptors[own], k0.path.value)
  }

  lemma ReachedIff(k0: Kernel, own: Descriptor, probe: Descriptor, d: Description, x: Interference)
    requires d !in AtOpen(k0, x).inodes && !Reached(k0, own, x)
    ensures !Validate(k0, own, probe, d, x).1
  {
    if Validate(k0, own, probe, d, x).1 {
      SuccessPassed(k0, own, probe, d, x);
      OpenedNames(AtOpen(k0, x), probe, d);
    }
  }

  /** What the check answers once both descriptors refer to the file. */
  lemma ProbedAnswer(k0: Kernel, own: Descriptor, probe: Descriptor, d: Description, x: Interference, mine: Description, i: Inode)
    requires k0.path == Some(i) && RefersTo(ActAll(k0, x.afterStat), own, mine, i) && RefersTo(Opened(AtOpen(k0, x), probe, d), probe, d, i)
    requires d in AtProbe(k0, probe, d, x).inodes && RefersTo(AtClaim(k0, probe, d, x), own, mine, i)
    ensures Validate(k0, own, probe, d, x).1 == (!Flock(AtProbe(k0, probe, d, x), d, Shared).1 && Flock(AtClaim(k0, probe, d, x), mine, Exclusive).1)
  {
  }

  lemma ProbedIff(k0: Kernel, own: Descriptor, probe: Descriptor, d: Description, x: Interference)
    requires Consistent(k0) && own.process == probe.process && own != probe && AllForeign(x, own.process)
    requires d !in AtOpen(k0, x).inodes && probe !in AtOpen(k0, x).descriptors && Reached(k0, own, x)
    ensures Validate(k0, own, probe, d, x).1 <==>
      LockedElsewhere(AtProbe(k0, probe, d, x), d) && MayClaim(AtClaim(k0, probe, d, x), own, k0.path.value)
  {
    var i, mine := k0.path.value, ActAll(k0, x.afterStat).descriptors[own];
    AlwaysConsistent(k0, x.afterStat);
    AlwaysConsistent(ActAll(k0, x.afterStat), x.beforeOpen);
    assert RefersTo(Opened(AtOpen(k0, x), probe, d), probe, d, i);
    UntilProbe(k0, own, probe, d, x, mine, i);
    var k4 := AtProbe(k0, probe, d, x);
    ProbeRefusedIff(k4, d);
    FlockConsistent(k4, d, Shared);
    var k5 := Flock(k4, d, Shared).0;
    assert RefersTo(k5, own, mine, i);
    AlwaysConsistent(k5, x.afterProbe);
    ForeignKeeps(k5, x.afterProbe, own, mine, i);
    ClaimedIff(AtClaim(k0, probe, d, x), own, mine, i);
    ProbedAnswer(k0, own, probe, d, x, mine, i);
  }

  /**
   Whatever other processes do in between: the check succeeds exactly when the lock path names one file when it
   is looked at and when the probe is opened, the inherited descriptor refers to that file, another description
   than the probe's has it locked exclusively when the probe asks, and no other than the inherited one's has a
   lock on it at the end.
   */
  lemma CheckIff(k0: Kernel, own: Descriptor, probe: Descriptor, d: Description, x: Interference)
    requires Consistent(k0) && own.process == probe.process && own != probe && AllForeign(x, own.process)
    requires d !in AtOpen(k0, x).inodes && probe !in k0.descriptors
    ensures Validate(k0, own, probe, d, x).1 <==>
      && Reached(k0, own, x) && LockedElsewhere(AtProbe(k0, probe, d, x), d)
      && MayClaim(AtClaim(k0, probe, d, x), own, k0.path.value)
  {
    ProbeStays(k0, probe, d, x);
    if Reached(k0, own, x) { ProbedIff(k0, own, probe, d, x); } else { ReachedIff(k0, own, probe, d, x); }
  }

  // ---------------------------------------------------------------- the descriptors of this process

  /** The process has the same descriptors, for the same descriptions. */
  ghost predicate SameDescriptors(k: Kernel, l: Kernel, process: nat) {
    forall at: Descriptor :: at.process == process ==>
      (at in k.descriptors <==> at in l.descriptors) && (at in k.descriptors ==> k.descriptors[at] == l.descriptors[at])
  }

  lemma ForeignActSame(k: Kernel, a: Action, process: nat)
    requires Foreign([a], process)
    ensures SameDescriptors(k, Act(k, a), process)
  {
    assert [a][0] == a;
  }

  lemma {:induction false} ForeignSame(k: Kernel, actions: seq<Action>, process: nat)
    requires Foreign(actions, process)
    ensures SameDescriptors(k, ActAll(k, actions), process)
    decreases |actions|
  {
    if actions != [] {
      assert [actions[0]][0] == actions[0];
      ForeignActSame(k, actions[0], process);
      assert forall n :: 0 <= n < |actions[1..]| ==> actions[1..][n] == actions[n + 1];
      ForeignSame(Act(k, actions[0]), actions[1..], process);
    }
  }

  /** The process has these descriptors and the probe. */
  ghost predicate ProbeAdded(k: Kernel, l: Kernel, probe: Descriptor) {
    && probe !in k.descriptors
    && forall at: Descriptor :: at.process == probe.process && at != probe ==>
         (at in k.descriptors <==> at in l.descriptors) && (at in k.descriptors ==> k.descriptors[at] == l.descriptors[at])
  }

  lemma ProbeClosed(k: Kernel, l: Kernel, probe: Descriptor)
    requires ProbeAdded(k, l, probe)
    ensures SameDescriptors(k, Closed(l, probe), probe.process)
  {
  }

  /** From opening the probe on, the process has it besides its other descriptors. */
  lemma ProbeStays(k0: Kernel, probe: Descriptor, d: Description, x: Interference)
    requires Consistent(k0) && AllForeign(x, probe.process) && probe !in k0.descriptors
    ensures SameDescriptors(k0, ActAll(k0, x.afterStat), probe.process) && SameDescriptors(k0, AtOpen(k0, x), probe.process)
    ensures var k3 := Opened(AtOpen(k0, x), probe, d);
      probe in k3.descriptors && k3.descriptors[probe] == d && d in k3.inodes ==>
        && ProbeAdded(k0, k3, probe) && ProbeAdded(k0, AtProbe(k0, probe, d, x), probe) && d in AtProbe(k0, probe, d, x).inodes
        && ProbeAdded(k0, AtClaim(k0, probe, d, x), probe)
  {
    ForeignSame(k0, x.afterStat, probe.process);
    ForeignSame(ActAll(k0, x.afterStat), x.beforeOpen, probe.process);
    var k3, k4 := Opened(AtOpen(k0, x), probe, d), AtProbe(k0, probe, d, x);
    if probe in k3.descriptors && k3.descriptors[probe] == d && d in k3.inodes {
      ForeignKeeps(k3, x.afterOpen, probe, d, k3.inodes[d]);
      ForeignSame(k3, x.afterOpen, probe.process);
      ForeignSame(Flock(k4, d, Shared).0, x.afterProbe, probe.process);
    }
  }

  /** Whatever happens in between, the check leaves the process the descriptors it had: its probe is closed. */
  lemma NoProbeLeft(k0: Kernel, own: Descriptor, probe: Descriptor, d: Description, x: Interference)
    requires Consistent(k0) && AllForeign(x, probe.process) && probe !in k0.descriptors
    ensures SameDescriptors(k0, Validate(k0, own, probe, d, x).0, probe.process)
  {
    ProbeStays(k0, probe, d, x);
    var k3, k4 := Opened(AtOpen(k0, x), probe, d), AtProbe(k0, probe, d, x);
    if probe in k3.descriptors && k3.descriptors[probe] == d && d in k3.inodes {
      var k5 := Flock(k4, d, Shared).0;
      ProbeClosed(k0, k3, probe);
      ProbeClosed(k0, k5.(held := k5.held - {d}), probe);
      ProbeClosed(k0, AtClaim(k0, probe, d, x), probe);
      ClaimKeepsDescriptors(k0, AtClaim(k0, probe, d, x), own, probe);
    }
  }

  lemma ClaimKeepsDescriptors(k0: Kernel, k: Kernel, own: Descriptor, probe: Descriptor)
    requires ProbeAdded(k0, k, probe)
    ensures own in k.descriptors && k.descriptors[own] in k.inodes ==>
      SameDescriptors(k0, Closed(Flock(k, k.descriptors[own], Exclusive).0, probe), probe.process)
  {
    if own in k.descriptors && k.descriptors[own] in k.inodes { ProbeClosed(k0, Flock(k, k.descriptors[own], Exclusive).0, probe); }
  }

  /** Opening a descriptor with a new description and closing it again changes nothing. */
  lemma OpenClose(k: Kernel, probe: Descriptor, d: Description)
    requires Consistent(k) && d !in k.inodes && probe !in k.descriptors && k.path.Some?
    ensures Closed(Opened(k, probe, d), probe) == k
  {
    var withProbe := Opened(k, probe, d);
    assert d !in k.held;
    assert withProbe.descriptors - {probe} == k.descriptors;
    assert d !in k.descriptors.Values;
    assert withProbe.inodes - {d} == k.inodes;
    assert withProbe.held - {d} == k.held;
  }

  /**
   Undisturbed, the check succeeds exactly when the inherited descriptor's description owns the lock of
   the canonical file, and either way it leaves every lock and descriptor as it found them.
   */
  lemma UndisturbedCheckIff(k: Kernel, own: Descriptor, probe: Descriptor, d: Description)
    requires Consistent(k) && k.path.Some? && own != probe && d !in k.inodes && probe !in k.descriptors
    ensures Validate(k, own, probe, d, NOTHING) == (k, Owns(k, own, k.path.value))
  {
    var inode := k.path.value;
    assert d !in k.held;
    if own in k.descriptors && k.inodes[k.descriptors[own]] == inode {
      var mine := k.descriptors[own];
      var withProbe := Opened(k, probe, d);
      OpenClose(k, probe, d);
      if Grantable(withProbe, d, Shared) {
        var probed := Flock(withProbe, d, Shared).0;
        assert probed.held - {d} == withProbe.held;
        assert probed.(held := probed.held - {d}) == withProbe;
      } else {
        assert withProbe.held - {d} == withProbe.held;
        var e :| e in withProbe.held && e in withProbe.inodes && e != d && withProbe.inodes[e] == inode && withProbe.held[e] == Exclusive;
        if mine != e {
          assert mine !in withProbe.held;
          assert withProbe.held - {mine} == withProbe.held;
          assert !Grantable(withProbe, mine, Exclusive);
        }
      }
    }
  }

  // ---------------------------------------------------------------- taking the lock

  /**
   `lock_exec` up to the `exec`: open the lock file with description `d`, lock it, move it to the agreed
   descriptor number and run the check there with probe description `e`; a failed check closes it again.
   */
  function LockAndCheck(
    k: Kernel, opening: Descriptor, agreed: Descriptor, d: Description, probe: Descriptor, e: Description, x: Interference): (Kernel, bool)
  {
    var k1 := Opened(k, opening, d);
    if opening !in k1.descriptors || k1.descriptors[opening] != d || d !in k1.inodes then (k, false)
    else
      var (k2, locked) := Flock(k1, d, Exclusive);
      if !locked then (Closed(k2, opening), false)
      else
        var k3 := if opening == agreed then k2 else Closed(Act(k2, Duplicate(opening, agreed)), opening);
        var (k4, ok) := Validate(k3, agreed, probe, e, x);
        (if ok then k4 else Closed(k4, agreed), ok)
  }

  lemma DuplicateRefers(k: Kernel, opening: Descriptor, agreed: Descriptor, d: Description, i: Inode)
    requires Consistent(k) && RefersTo(k, opening, d, i) && opening != agreed
    requires d in k.held
    ensures var moved := Closed(Act(k, Duplicate(opening, agreed)), opening);
            && RefersTo(moved, agreed, d, i) && d in moved.held && moved.held[d] == k.held[d]
            && Consistent(moved) && moved.path == k.path
            && (forall a :: a in moved.descriptors ==> a in k.descriptors || a == agreed)
            && (forall j :: j in moved.inodes ==> j in k.inodes)
  {
    ActConsistent(k, Duplicate(opening, agreed));
    var c := Closed(k, agreed);
    ClosedKeeps(k, agreed, opening, d, i);
    var k1 := Act(k, Duplicate(opening, agreed));
    assert RefersTo(k1, agreed, d, i) && d in k1.held && k1.held[d] == k.held[d];
    ClosedConsistent(k1, opening);
    ClosedKeeps(k1, opening, agreed, d, i);
  }

  /** Undisturbed, taking the lock succeeds exactly when no other description has a lock on the file. */
  lemma UndisturbedLockIff(
    k: Kernel, opening: Descriptor, agreed: Descriptor, d: Description, probe: Descriptor, e: Description)
    requires Consistent(k) && k.path.Some? && d !in k.inodes && e !in k.inodes && d != e
    requires opening !in k.descriptors && probe !in k.descriptors && probe != opening && probe != agreed
    ensures var (after, ok) := LockAndCheck(k, opening, agreed, d, probe, e, NOTHING);
            && (ok <==> forall f :: f in k.held ==> k.inodes[f] != k.path.value)
            && (ok ==> Owns(after, agreed, k.path.value))
            && (!ok ==> after == k)
  {
    var inode := k.path.value;
    var k1 := Opened(k, opening, d);
    assert d !in k.held;
    ActConsistent(k, Open(opening, d));
    FlockConsistent(k1, d, Exclusive);
    var (k2, locked) := Flock(k1, d, Exclusive);
    if locked {
      assert forall f :: f in k.held ==> f in k1.held && f in k1.inodes && f != d;
      var k3 := if opening == agreed then k2 else Closed(Act(k2, Duplicate(opening, agreed)), opening);
      if opening != agreed { DuplicateRefers(k2, opening, agreed, d, inode); }
      UndisturbedCheckIff(k3, agreed, probe, e);
    } else {
      assert k1.held - {d} == k1.held;
      OpenClose(k, opening, d);
    }
  }

  // ---------------------------------------------------------------- the check as it runs

  class LockTable {
    var kernel: Kernel

    constructor (k: Kernel)
      ensures kernel == k
    {
      kernel := k;
    }

    method Interfere(actions: seq<Action>)
      modifies this
      ensures kernel == ActAll(old(kernel), actions)
    {
      var i := 0;
      assert actions[0..] == actions;
      while i < |actions|
        invariant 0 <= i <= |actions|
        invariant ActAll(kernel, actions[i..]) == ActAll(old(kernel), actions)
      {
        assert actions[i..][1..] == actions[i + 1..];
        kernel := Act(kernel, actions[i]);
        i := i + 1;
      }
    }

    method ValidateLockDescriptor(own: Descriptor, probe: Descriptor, d: Description, x: Interference) returns (ok: bool)
      modifies this
      ensures (kernel, ok) == Validate(old(kernel), own, probe, d, x)
    {
      if kernel.path.None? { return false; }
      var inode := kernel.path.value;
      Interfere(x.afterStat);
      if own !in kernel.descriptors || kernel.descriptors[own] !in kernel.inodes { return false; }
      if kernel.inodes[kernel.descriptors[own]] != inode { return false; }
      Interfere(x.beforeOpen);
      var withProbe := Opened(kernel, probe, d);
      if probe !in withProbe.descriptors || withProbe.descriptors[probe] != d || d !in withProbe.inodes { return false; }
      kernel := withProbe;
      if kernel.inodes[d] != inode {
        kernel := Closed(kernel, probe);
        return false;
      }
      Interfere(x.afterOpen);
      if d !in kernel.inodes { return false; }
      var (probed, shared) := Flock(kernel, d, Shared);
      kernel := probed;
      if shared {
        kernel := Closed(kernel.(held := kernel.held - {d}), probe);
        return false;
      }
      Interfere(x.afterProbe);
      if own !in kernel.descriptors || kernel.descriptors[own] !in kernel.inodes {
        kernel := Closed(kernel, probe);
        return false;
      }
      var (locked, owned) := Flock(kernel, kernel.descriptors[own], Exclusive);
      kernel := Closed(locked, probe);
      ok := owned;
    }
  }
}
