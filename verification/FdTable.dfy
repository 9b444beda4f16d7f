/** The file descriptor pool of the HAL and its exclusive device locks. */
module FdTable {
  import opened Words

  const MAX_FD: nat := 32
  const EXCL: nat := 31   // bit of ALT_FD_EXCL
  const DEV: nat := 30    // bit of ALT_FD_DEV
  const APPEND: nat := 3
  const NONBLOCK: nat := 14

  const EACCES := 13
  const ENODEV := 19
  const EINVAL := 22
  const EMFILE := 24
  const ENOTTY := 25
  const EBADFD := 81

  /** What a descriptor refers to; a free one refers to nothing, as does a name that is not found. */
  datatype Target = Nothing | Device(id: nat) | FileSystem(id: nat)

  datatype Slot = Slot(dev: Target, flags: Word) {
    predicate Free() { dev == Nothing }
    predicate Holds() { flags[EXCL] }
  }

  const FREE_SLOT := Slot(Nothing, Mask(0))

  datatype Table = Table(slots: seq<Slot>, maxFd: int, errno: int)

  datatype Request = Lock | Unlock | Other

  datatype FcntlCommand = GetFlags | SetFlags(arg: Word) | BadCommand

  /** One call, with what the driver's own callback returns (0 for a driver without open or close callback). */
  datatype Op =
    | Open(target: Target, mode: Word, driver: int)
    | Close(fd: int, driver: int)
    | Ioctl(fd: int, req: Request, hasDriver: bool, driver: int)
    | Fcntl(fd: int, cmd: FcntlCommand)
    | Redirect(std: nat, target: Target, mode: Word, driver: int)

  /** The descriptor a call names must exist; a negative one is answered with an error. */
  predicate Defined(t: Table, op: Op)
  {
    match op
    case Open(_, _, _) => true
    case Close(fd, _) => fd < |t.slots| && (fd >= 0 ==> !t.slots[fd].Free())
    case Ioctl(fd, _, _, _) => fd < |t.slots| && (fd >= 0 ==> !t.slots[fd].Free())
    case Fcntl(fd, _) => fd < |t.slots|
    case Redirect(std, _, _, _) => std <= 2
  }

  /** The lowest free index from i on, or the size of the pool. */
  function LowestFree(slots: seq<Slot>, i: nat): (r: nat)
    requires i <= |slots|
    ensures i <= r <= |slots| && (r < |slots| ==> slots[r].Free())
    ensures forall k :: i <= k < r ==> !slots[k].Free()
    decreases |slots| - i
  {
    if i < |slots| && !slots[i].Free() then LowestFree(slots, i + 1) else i
  }

  /** Flags a caller may choose. */
  function UserFlags(w: Word): Word
  {
    seq(WIDTH, k requires 0 <= k < WIDTH => w[k] && k != EXCL && k != DEV)
  }

  function FcntlFlags(now: Word, arg: Word): Word
  {
    seq(WIDTH, k requires 0 <= k < WIDTH => if k == APPEND || k == NONBLOCK then arg[k] else now[k])
  }

  /** Some other descriptor up to the high-water mark holds the device of this one. */
  ghost predicate HeldElsewhere(t: Table, fd: nat)
    requires fd < |t.slots|
  {
    exists i: nat :: i <= t.maxFd && i < |t.slots| && i != fd && t.slots[i].dev == t.slots[fd].dev && t.slots[i].Holds()
  }

  /** Some other descriptor below the high-water mark refers to the device of this one. */
  ghost predicate SharedBelow(t: Table, fd: nat)
    requires fd < |t.slots|
  {
    exists i: nat :: i < t.maxFd && i < |t.slots| && i != fd && t.slots[i].dev == t.slots[fd].dev
  }

  function Fail(t: Table, errno: int): (Table, int)
  {
    (t.(errno := errno), -1)
  }

  function Release(t: Table, fd: int): Table
  {
    if 2 < fd < |t.slots| then t.(slots := t.slots[fd := FREE_SLOT]) else t
  }

  /** The descriptor taken for an open, before the lock check and the driver's say. */
  function Taken(t: Table, target: Target, mode: Word): Table
    requires LowestFree(t.slots, 0) < |t.slots|
  {
    var n := LowestFree(t.slots, 0);
    var flags := UserFlags(mode);
    t.(slots := t.slots[n := Slot(target, if target.Device? then flags[DEV := true] else flags)], maxFd := Max(n, t.maxFd))
  }

  ghost function Opened(t: Table, target: Target, mode: Word, driver: int): (Table, int)
  {
    var n := LowestFree(t.slots, 0);
    if target == Nothing then Fail(t, ENODEV)
    else if n == |t.slots| then Fail(t, EMFILE)
    else
      var u := Taken(t, target, mode);
      var status := if target.Device? && HeldElsewhere(u, n) then -EACCES else driver;
      if status < 0 then Fail(Release(u, n), -status) else (u, n)
  }

  ghost function Next(t: Table, op: Op): (Table, int)
    requires Defined(t, op)
  {
    match op
    case Open(target, mode, driver) => Opened(t, target, mode, driver)
    case Close(fd, driver) =>
      if fd < 0 then Fail(t, EBADFD)
      else if driver < 0 then Fail(Release(t, fd), -driver)
      else (Release(t, fd), 0)
    case Ioctl(fd, req, hasDriver, driver) =>
      if fd < 0 then (t.(errno := EBADFD), -EBADFD)
      else if t.slots[fd].flags[DEV] && req == Lock then
        if SharedBelow(t, fd) then (t.(errno := EACCES), -EACCES)
        else (t.(slots := t.slots[fd := t.slots[fd].(flags := t.slots[fd].flags[EXCL := true])]), 0)
      else if t.slots[fd].flags[DEV] && req == Unlock then
        (t.(slots := t.slots[fd := t.slots[fd].(flags := t.slots[fd].flags[EXCL := false])]), 0)
      else
        var rc := if hasDriver then driver else -ENOTTY;
        (if rc < 0 then t.(errno := -rc) else t, rc)
    case Fcntl(fd, cmd) =>
      if fd < 0 then Fail(t, EBADFD)
      else
        (match cmd
         case GetFlags => (t, 0)
         case SetFlags(arg) =>
           (t.(slots := t.slots[fd := t.slots[fd].(flags := FcntlFlags(t.slots[fd].flags, arg))]), 0)
         case BadCommand => Fail(t, EINVAL))
    case Redirect(std, target, mode, driver) =>
      var (u, fd) := Opened(t, target, mode, driver);
      (if 0 <= fd < |u.slots| && std < |u.slots| then Release(u.(slots := u.slots[std := u.slots[fd]]), fd) else u, 0)
  }

  /** The state before any call: the three standard descriptors refer to the null device. */
  function Boot(): Table
  {
    Table(seq(MAX_FD, i => if i <= 2 then Slot(Device(0), Mask(0)) else FREE_SLOT), -1, 0)
  }

  ghost predicate Inv(t: Table)
  {
    && |t.slots| == MAX_FD && -1 <= t.maxFd < MAX_FD
    && !t.slots[0].Free() && !t.slots[1].Free() && !t.slots[2].Free()
    && (forall i :: 0 <= i < MAX_FD ==> Placed(t.slots, t.maxFd, i))
    && forall i, j :: 0 <= i < MAX_FD && 0 <= j < MAX_FD ==> Exclusive(t.slots, i, j)
  }

  /** One descriptor: allocated ones lie up to the high-water mark, only device descriptors are marked, and
      the mark has been raised before the first of them. */
  ghost predicate Placed(slots: seq<Slot>, maxFd: int, i: nat)
    requires i < |slots|
  {
    && (!slots[i].Free() ==> i <= Max(2, maxFd))
    && (slots[i].Holds() ==> slots[i].flags[DEV])
    && (slots[i].flags[DEV] ==> slots[i].dev.Device? && 3 <= maxFd)
  }

  /** Two descriptors: any other one for a held device has the higher index, and does not hold it. */
  ghost predicate Exclusive(slots: seq<Slot>, i: nat, j: nat)
    requires i < |slots| && j < |slots|
  {
    slots[i].Holds() && i != j && slots[j].dev == slots[i].dev ==> i < j && !slots[j].Holds()
  }

  lemma BootInv()
    ensures Inv(Boot())
  {
    var t := Boot();
    forall i | 0 <= i < MAX_FD
      ensures !t.slots[i].Holds() && !t.slots[i].flags[DEV]
    {
      assert t.slots[i] == if i <= 2 then Slot(Device(0), Mask(0)) else FREE_SLOT;
      assert !Mask(0)[EXCL] && !Mask(0)[DEV];
    }
  }

  lemma TakenInv(t: Table, target: Target, mode: Word)
    requires Inv(t) && target != Nothing && LowestFree(t.slots, 0) < MAX_FD
    requires var n := LowestFree(t.slots, 0); !(target.Device? && HeldElsewhere(Taken(t, target, mode), n))
    ensures Inv(Taken(t, target, mode))
  {
    var n := LowestFree(t.slots, 0);
    var u := Taken(t, target, mode);
    assert 3 <= n <= u.maxFd;
    forall i, j | 0 <= i < MAX_FD && 0 <= j < MAX_FD
      ensures Exclusive(u.slots, i, j)
    {
      assert Exclusive(t.slots, i, j) && Placed(t.slots, t.maxFd, i) && Placed(t.slots, t.maxFd, j);
    }
    forall i | 0 <= i < MAX_FD
      ensures Placed(u.slots, u.maxFd, i)
    {
      assert Placed(t.slots, t.maxFd, i);
    }
  }

  lemma ReleaseInv(t: Table, fd: int)
    requires Inv(t)
    ensures Inv(Release(t, fd))
  {
    var u := Release(t, fd);
    forall i, j | 0 <= i < MAX_FD && 0 <= j < MAX_FD
      ensures Exclusive(u.slots, i, j)
    {
      assert Exclusive(t.slots, i, j) && Placed(t.slots, t.maxFd, i);
    }
    forall i | 0 <= i < MAX_FD
      ensures Placed(u.slots, u.maxFd, i)
    {
      assert Placed(t.slots, t.maxFd, i);
    }
  }

  /** An open that is undone leaves the table as it was, but for a higher mark and the flags of the slot tried. */
  lemma UndoneInv(t: Table, target: Target, mode: Word)
    requires Inv(t) && target != Nothing && LowestFree(t.slots, 0) < MAX_FD
    ensures Inv(Release(Taken(t, target, mode), LowestFree(t.slots, 0)))
  {
    var n := LowestFree(t.slots, 0);
    var u := Release(Taken(t, target, mode), n);
    assert 3 <= n;
    assert u.slots == t.slots[n := FREE_SLOT];
    forall i, j | 0 <= i < MAX_FD && 0 <= j < MAX_FD
      ensures Exclusive(u.slots, i, j)
    {
      assert Exclusive(t.slots, i, j) && Placed(t.slots, t.maxFd, i);
    }
    forall i | 0 <= i < MAX_FD
      ensures Placed(u.slots, u.maxFd, i)
    {
      assert Placed(t.slots, t.maxFd, i);
    }
  }

  lemma OpenInv(t: Table, target: Target, mode: Word, driver: int)
    requires Inv(t)
    ensures Inv(Opened(t, target, mode, driver).0)
  {
    var n := LowestFree(t.slots, 0);
    if target != Nothing && n < MAX_FD {
      UndoneInv(t, target, mode);
      if !(target.Device? && HeldElsewhere(Taken(t, target, mode), n)) {
        TakenInv(t, target, mode);
      }
    }
  }

  /** A successful open takes the lowest free index, for a target that no descriptor holds. */
  lemma OpenedFresh(t: Table, target: Target, mode: Word, driver: int)
    requires Inv(t) && Opened(t, target, mode, driver).1 >= 0
    ensures var (u, fd) := Opened(t, target, mode, driver);
      && target != Nothing && fd == LowestFree(t.slots, 0) && 3 <= fd < MAX_FD && u == Taken(t, target, mode)
      && forall i :: 0 <= i < MAX_FD && u.slots[i].dev == target ==> !u.slots[i].Holds()
  {
    var n := LowestFree(t.slots, 0);
    var u := Taken(t, target, mode);
    forall i | 0 <= i < MAX_FD && u.slots[i].dev == target
      ensures !u.slots[i].Holds()
    {
      assert Placed(t.slots, t.maxFd, i);
      assert i <= u.maxFd;
    }
  }

  /** New flags that keep the two marks keep the invariant. */
  lemma FlagsInv(t: Table, fd: nat, flags: Word)
    requires Inv(t) && fd < MAX_FD
    requires flags[EXCL] ==> t.slots[fd].Holds()
    requires flags[DEV] == t.slots[fd].flags[DEV]
    ensures Inv(t.(slots := t.slots[fd := t.slots[fd].(flags := flags)]))
  {
    var u := t.(slots := t.slots[fd := t.slots[fd].(flags := flags)]);
    forall i, j | 0 <= i < MAX_FD && 0 <= j < MAX_FD
      ensures Exclusive(u.slots, i, j)
    {
      assert Exclusive(t.slots, i, j);
    }
    forall i | 0 <= i < MAX_FD
      ensures Placed(u.slots, u.maxFd, i)
    {
      assert Placed(t.slots, t.maxFd, i);
    }
  }

  /** Granting a lock.  The scan stops short of the high-water mark, but a descriptor it misses has the higher
      index and so cannot itself be the holder. */
  lemma LockInv(t: Table, fd: nat)
    requires Inv(t) && fd < MAX_FD && t.slots[fd].flags[DEV] && !SharedBelow(t, fd)
    ensures Inv(t.(slots := t.slots[fd := t.slots[fd].(flags := t.slots[fd].flags[EXCL := true])]))
  {
    var u := t.(slots := t.slots[fd := t.slots[fd].(flags := t.slots[fd].flags[EXCL := true])]);
    assert Placed(t.slots, t.maxFd, fd);
    forall i, j | 0 <= i < MAX_FD && 0 <= j < MAX_FD
      ensures Exclusive(u.slots, i, j)
    {
      assert Exclusive(t.slots, i, j) && Exclusive(t.slots, j, i) && Placed(t.slots, t.maxFd, i) && Placed(t.slots, t.maxFd, j);
    }
    forall i | 0 <= i < MAX_FD
      ensures Placed(u.slots, u.maxFd, i)
    {
      assert Placed(t.slots, t.maxFd, i);
    }
  }

  /** A standard descriptor takes over a fresh one. */
  lemma RedirectInv(t: Table, std: nat, target: Target, mode: Word, driver: int)
    requires Inv(t) && std <= 2
    ensures Inv(Next(t, Redirect(std, target, mode, driver)).0)
  {
    OpenInv(t, target, mode, driver);
    var (u, fd) := Opened(t, target, mode, driver);
    if 0 <= fd < MAX_FD {
      OpenedFresh(t, target, mode, driver);
      var w := Release(u.(slots := u.slots[std := u.slots[fd]]), fd);
      assert 3 <= fd && w.slots == u.slots[std := u.slots[fd]][fd := FREE_SLOT];
      forall i, j | 0 <= i < MAX_FD && 0 <= j < MAX_FD
        ensures Exclusive(w.slots, i, j)
      {
        assert Exclusive(u.slots, i, j) && Exclusive(u.slots, i, fd) && Placed(u.slots, u.maxFd, i);
      }
      forall i | 0 <= i < MAX_FD
        ensures Placed(w.slots, w.maxFd, i)
      {
        assert Placed(u.slots, u.maxFd, i) && Placed(u.slots, u.maxFd, fd);
      }
    }
  }

  lemma NextInv(t: Table, op: Op)
    requires Inv(t) && Defined(t, op)
    ensures Inv(Next(t, op).0)
  {
    match op
    case Open(target, mode, driver) => OpenInv(t, target, mode, driver);
    case Close(fd, _) => ReleaseInv(t, fd);
    case Ioctl(fd, req, _, _) =>
      if fd >= 0 {
        FlagsInv(t, fd, t.slots[fd].flags[EXCL := false]);
        if t.slots[fd].flags[DEV] && !SharedBelow(t, fd) {
          LockInv(t, fd);
        }
      }
    case Fcntl(fd, cmd) =>
      if fd >= 0 && cmd.SetFlags? {
        FlagsInv(t, fd, FcntlFlags(t.slots[fd].flags, cmd.arg));
      }
    case Redirect(std, target, mode, driver) => RedirectInv(t, std, target, mode, driver);
  }

  // What each call does.

  /** Only slot fd may differ. */
  ghost predicate OthersKeep(t: Table, u: Table, fd: int)
  {
    |u.slots| == |t.slots| && forall i :: 0 <= i < |t.slots| && i != fd ==> u.slots[i] == t.slots[i]
  }

  /** Slot fd keeps what it refers to and all of its flags except bit b, which is now `want`. */
  ghost predicate BitSet(t: Table, u: Table, fd: nat, b: nat, want: bool)
    requires fd < |t.slots| == |u.slots| && b < WIDTH
  {
    && u.slots[fd].dev == t.slots[fd].dev && u.slots[fd].flags[b] == want
    && forall k :: 0 <= k < WIDTH && k != b ==> u.slots[fd].flags[k] == t.slots[fd].flags[k]
  }

  /** No descriptor is free. */
  ghost predicate Full(t: Table)
  {
    forall i :: 0 <= i < |t.slots| ==> !t.slots[i].Free()
  }

  /** Nobody holds the device. */
  ghost predicate Unheld(t: Table, dev: Target)
  {
    forall i :: 0 <= i < |t.slots| && t.slots[i].dev == dev ==> !t.slots[i].Holds()
  }

  /** Unlocking a device descriptor drops its lock and nothing else. */
  lemma UnlockClears(t: Table, fd: nat, hasDriver: bool, driver: int)
    requires Inv(t) && fd < MAX_FD && !t.slots[fd].Free() && t.slots[fd].flags[DEV]
    ensures var (u, rc) := Next(t, Ioctl(fd, Unlock, hasDriver, driver));
      && rc == 0 && u.maxFd == t.maxFd && u.errno == t.errno
      && OthersKeep(t, u, fd) && BitSet(t, u, fd, EXCL, false)
  {
  }

  /** Once the holder has unlocked, nobody holds the device, and an open of it succeeds if a descriptor is free and
      the driver agrees. */
  lemma UnlockEndsLock(t: Table, fd: nat, hasDriver: bool, answer: int, mode: Word, driver: int)
    requires Inv(t) && fd < MAX_FD && t.slots[fd].Holds()
    ensures !t.slots[fd].Free() && t.slots[fd].flags[DEV]
    ensures var u := Next(t, Ioctl(fd, Unlock, hasDriver, answer)).0;
      && Inv(u) && Unheld(u, t.slots[fd].dev) && Allocated(u) == Allocated(t)
      && (!Full(t) && driver >= 0 ==> Next(u, Open(t.slots[fd].dev, mode, driver)).1 >= 0)
  {
    assert Placed(t.slots, t.maxFd, fd);
    var u := Next(t, Ioctl(fd, Unlock, hasDriver, answer)).0;
    NextInv(t, Ioctl(fd, Unlock, hasDriver, answer));
    UnlockClears(t, fd, hasDriver, answer);
    forall i | 0 <= i < MAX_FD && u.slots[i].dev == t.slots[fd].dev
      ensures !u.slots[i].Holds()
    {
      assert Exclusive(t.slots, fd, i);
    }
    OpenSucceedsIff(u, t.slots[fd].dev, mode, driver);
    assert Full(u) ==> Full(t);
  }

  /** A lock is granted by setting that bit alone, and refused with EACCES while a descriptor below the mark shares the
      device. */
  lemma LockSets(t: Table, fd: nat, hasDriver: bool, driver: int)
    requires Inv(t) && fd < MAX_FD && !t.slots[fd].Free() && t.slots[fd].flags[DEV]
    ensures var (u, rc) := Next(t, Ioctl(fd, Lock, hasDriver, driver));
      && u.maxFd == t.maxFd && OthersKeep(t, u, fd)
      && if SharedBelow(t, fd) then rc == -13 && u.errno == 13 && u.slots == t.slots
         else rc == 0 && u.errno == t.errno && BitSet(t, u, fd, EXCL, true)
  {
  }

  /** Any other request goes to the driver, and so do lock requests on a file system; only the error may change. */
  lemma OtherRequests(t: Table, fd: int, req: Request, hasDriver: bool, driver: int)
    requires Inv(t) && Defined(t, Ioctl(fd, req, hasDriver, driver)) && (fd >= 0 ==> req == Other || !t.slots[fd].flags[DEV])
    ensures var (u, rc) := Next(t, Ioctl(fd, req, hasDriver, driver));
      && u.slots == t.slots && u.maxFd == t.maxFd && rc == (if fd < 0 then -81 else if hasDriver then driver else -25)
      && u.errno == if rc < 0 then -rc else t.errno
  {
  }

  /** Closing frees a descriptor above 2 whatever the driver answers, and touches no other. */
  lemma CloseFrees(t: Table, fd: int, driver: int)
    requires Inv(t) && Defined(t, Close(fd, driver))
    ensures var (u, rc) := Next(t, Close(fd, driver));
      && u.maxFd == t.maxFd && OthersKeep(t, u, fd)
      && (0 <= fd <= 2 ==> u.slots == t.slots)
      && (fd > 2 ==> u.slots[fd].Free() && forall k :: 0 <= k < WIDTH ==> !u.slots[fd].flags[k])
      && rc == (if fd < 0 || driver < 0 then -1 else 0)
      && u.errno == if fd < 0 then 81 else if driver < 0 then -driver else t.errno
  {
    if fd > 2 {
      assert forall k :: 0 <= k < WIDTH ==> !Mask(0)[k];
    }
  }

  /** Closing the holder's descriptor ends its lock too. */
  lemma CloseEndsLock(t: Table, fd: nat, driver: int)
    requires Inv(t) && 2 < fd < MAX_FD && t.slots[fd].Holds() && !t.slots[fd].Free()
    ensures Unheld(Next(t, Close(fd, driver)).0, t.slots[fd].dev)
  {
    CloseFrees(t, fd, driver);
    var u := Next(t, Close(fd, driver)).0;
    forall i | 0 <= i < MAX_FD && u.slots[i].dev == t.slots[fd].dev
      ensures !u.slots[i].Holds()
    {
      assert Exclusive(t.slots, fd, i);
    }
  }

  /** Setting flags gives bits 3 and 14 the values asked for and leaves everything else. */
  lemma FcntlSets(t: Table, fd: int, cmd: FcntlCommand)
    requires Inv(t) && fd < MAX_FD
    ensures var (u, rc) := Next(t, Fcntl(fd, cmd));
      && u.maxFd == t.maxFd && OthersKeep(t, u, fd)
      && (fd < 0 ==> rc == -1 && u == t.(errno := 81))
      && (fd >= 0 && cmd == GetFlags ==> rc == 0 && u == t)
      && (fd >= 0 && cmd == BadCommand ==> rc == -1 && u == t.(errno := 22))
      && (fd >= 0 && cmd.SetFlags? ==>
            && rc == 0 && u.errno == t.errno && u.slots[fd].dev == t.slots[fd].dev
            && u.slots[fd].flags[3] == cmd.arg[3] && u.slots[fd].flags[14] == cmd.arg[14]
            && forall k :: 0 <= k < WIDTH && k != 3 && k != 14 ==> u.slots[fd].flags[k] == t.slots[fd].flags[k])
  {
  }

  /** A slot that has just been opened: the caller's flags, marked as a device's iff it is one, and not locked. */
  ghost predicate JustOpened(s: Slot, target: Target, mode: Word)
  {
    && s.dev == target && !s.flags[31] && s.flags[30] == target.Device?
    && forall k :: 0 <= k < 30 ==> s.flags[k] == mode[k]
  }

  /** What an open returns and changes, with the error of every failure. */
  lemma OpenTakes(t: Table, target: Target, mode: Word, driver: int)
    requires Inv(t)
    ensures var (u, fd) := Next(t, Open(target, mode, driver));
      && (fd >= 0 ==> fd < MAX_FD && t.slots[fd].Free() && OthersKeep(t, u, fd) && JustOpened(u.slots[fd], target, mode)
                      && u.maxFd == Max(fd, t.maxFd) && u.errno == t.errno)
      && (fd < 0 ==> fd == -1)
      && (fd < 0 ==> u.errno == (if target == Nothing then 19 else if Full(t) then 24
                                 else if !Unheld(t, target) then 13 else -driver))
  {
    var n := LowestFree(t.slots, 0);
    OpenSucceedsIff(t, target, mode, driver);
    if n < MAX_FD && target != Nothing {
      OpenHeldIff(t, target, mode);
    }
  }

  lemma OpenHeldIff(t: Table, target: Target, mode: Word)
    requires Inv(t) && target != Nothing && LowestFree(t.slots, 0) < MAX_FD
    ensures target.Device? && HeldElsewhere(Taken(t, target, mode), LowestFree(t.slots, 0)) <==> !Unheld(t, target)
  {
    var n := LowestFree(t.slots, 0);
    var u := Taken(t, target, mode);
    assert forall i :: 0 <= i < MAX_FD && i != n ==> u.slots[i] == t.slots[i];
    if !Unheld(t, target) {
      var i :| 0 <= i < MAX_FD && t.slots[i].dev == target && t.slots[i].Holds();
      assert Placed(t.slots, t.maxFd, i);
      assert u.slots[i] == t.slots[i];
    }
  }

  /** A redirection leaves the standard descriptor on the new target and no other descriptor more than before; a failed
      one leaves every descriptor in use as it was. */
  lemma RedirectMoves(t: Table, std: nat, target: Target, mode: Word, driver: int)
    requires Inv(t) && std <= 2
    ensures var u := Next(t, Redirect(std, target, mode, driver)).0;
      && Inv(u) && Allocated(u) == Allocated(t)
      && (forall i :: 0 <= i < MAX_FD && i != std && !t.slots[i].Free() ==> u.slots[i] == t.slots[i])
      && if Next(t, Open(target, mode, driver)).1 >= 0 then JustOpened(u.slots[std], target, mode)
         else u.slots[std] == t.slots[std]
  {
    RedirectInv(t, std, target, mode, driver);
    OpenTakes(t, target, mode, driver);
    var (v, fd) := Opened(t, target, mode, driver);
    var u := Next(t, Redirect(std, target, mode, driver)).0;
    if fd >= 0 {
      OpenedFresh(t, target, mode, driver);
      assert u.slots == v.slots[std := v.slots[fd]][fd := FREE_SLOT];
      assert forall i :: 0 <= i < MAX_FD ==> (u.slots[i].Free() <==> t.slots[i].Free());
    } else {
      OpenUndone(t, target, mode, driver);
    }
  }

  /** A failed open leaves every descriptor in use as it was. */
  lemma OpenUndone(t: Table, target: Target, mode: Word, driver: int)
    requires Inv(t) && Opened(t, target, mode, driver).1 < 0
    ensures var u := Opened(t, target, mode, driver).0;
      && |u.slots| == MAX_FD && Allocated(u) == Allocated(t)
      && forall i :: 0 <= i < MAX_FD && !t.slots[i].Free() ==> u.slots[i] == t.slots[i]
  {
    OpenConserves(t, target, mode, driver);
    var n := LowestFree(t.slots, 0);
    if target != Nothing && n < MAX_FD {
      assert 3 <= n;
      assert Release(Taken(t, target, mode), n).slots == t.slots[n := FREE_SLOT];
    }
  }

  // Whole runs.

  ghost predicate AllDefined(t: Table, ops: seq<Op>)
    decreases |ops|
  {
    ops == [] || (Defined(t, ops[0]) && AllDefined(Next(t, ops[0]).0, ops[1..]))
  }

  ghost function Run(t: Table, ops: seq<Op>): Table
    requires AllDefined(t, ops)
    decreases |ops|
  {
    if ops == [] then t else Run(Next(t, ops[0]).0, ops[1..])
  }

  lemma RunCons(t: Table, op: Op, rest: seq<Op>)
    requires Defined(t, op) && AllDefined(Next(t, op).0, rest)
    ensures AllDefined(t, [op] + rest) && Run(t, [op] + rest) == Run(Next(t, op).0, rest)
  {
    assert ([op] + rest)[1..] == rest;
  }

  lemma {:induction false} RunInv(t: Table, ops: seq<Op>)
    requires Inv(t) && AllDefined(t, ops)
    ensures Inv(Run(t, ops))
    decreases |ops|
  {
    if ops != [] {
      NextInv(t, ops[0]);
      RunInv(Next(t, ops[0]).0, ops[1..]);
    }
  }

  /** Whatever is called after boot, a device has at most one holder, and it has the lowest index of all
      descriptors for the device. */
  lemma AtMostOneHolder(ops: seq<Op>)
    requires AllDefined(Boot(), ops)
    ensures var t := Run(Boot(), ops);
      |t.slots| == MAX_FD &&
      forall i, j :: 0 <= i < MAX_FD && 0 <= j < MAX_FD && t.slots[i].Holds() && t.slots[j].dev == t.slots[i].dev
        ==> i <= j && (t.slots[j].Holds() ==> i == j)
  {
    BootInv();
    RunInv(Boot(), ops);
    var t := Run(Boot(), ops);
    forall i, j | 0 <= i < MAX_FD && 0 <= j < MAX_FD && t.slots[i].Holds() && t.slots[j].dev == t.slots[i].dev
      ensures i <= j && (t.slots[j].Holds() ==> i == j)
    {
      assert Exclusive(t.slots, i, j);
    }
  }

  /** The standard descriptors stay allocated, and no descriptor lies above the high-water mark. */
  lemma StandardDescriptorsStay(ops: seq<Op>)
    requires AllDefined(Boot(), ops)
    ensures var t := Run(Boot(), ops);
      && |t.slots| == MAX_FD && -1 <= t.maxFd < MAX_FD
      && (forall i :: 0 <= i <= 2 ==> !t.slots[i].Free())
      && forall i :: 0 <= i < MAX_FD && !t.slots[i].Free() ==> i <= Max(2, t.maxFd)
  {
    BootInv();
    RunInv(Boot(), ops);
    var t := Run(Boot(), ops);
    forall i | 0 <= i < MAX_FD && !t.slots[i].Free()
      ensures i <= Max(2, t.maxFd)
    {
      assert Placed(t.slots, t.maxFd, i);
    }
  }

  ghost function Allocated(t: Table): set<int>
  {
    set i | 0 <= i < |t.slots| && !t.slots[i].Free()
  }

  /** A failed open leaves the allocated descriptors as they were; a successful one adds the lowest free index. */
  lemma OpenConserves(t: Table, target: Target, mode: Word, driver: int)
    requires Inv(t)
    ensures var (u, fd) := Opened(t, target, mode, driver);
      if fd < 0 then
        fd == -1 && Allocated(u) == Allocated(t)
      else
        fd !in Allocated(t) && Allocated(u) == Allocated(t) + {fd} && forall k :: 0 <= k < fd ==> k in Allocated(t)
  {
    var n := LowestFree(t.slots, 0);
    var (u, fd) := Opened(t, target, mode, driver);
    if target != Nothing && n < MAX_FD {
      assert 3 <= n;
      assert Release(Taken(t, target, mode), n).slots == t.slots[n := FREE_SLOT];
    }
  }

  /** An open succeeds iff the target exists, a descriptor is free, no descriptor holds the device and the
      driver agrees. */
  lemma OpenSucceedsIff(t: Table, target: Target, mode: Word, driver: int)
    requires Inv(t)
    ensures Opened(t, target, mode, driver).1 >= 0 <==>
      && target != Nothing && LowestFree(t.slots, 0) < MAX_FD && driver >= 0
      && forall i :: 0 <= i < MAX_FD && t.slots[i].dev == target ==> !t.slots[i].Holds()
  {
    var n := LowestFree(t.slots, 0);
    forall i | 0 <= i < MAX_FD && t.slots[i].dev == target && t.slots[i].Holds()
      ensures target.Device? && i <= t.maxFd
    {
      assert Placed(t.slots, t.maxFd, i);
    }
    if target != Nothing && n < MAX_FD {
      var u := Taken(t, target, mode);
      assert forall i :: 0 <= i < MAX_FD && i != n ==> u.slots[i] == t.slots[i];
    }
  }

  /** Calls that leave descriptor h and its lock alone. */
  predicate Spares(op: Op, h: nat)
  {
    !(op.Close? && op.fd == h) && !(op.Ioctl? && op.fd == h && op.req == Unlock) && !(op.Redirect? && op.std == h)
  }

  /** Descriptor h still holds its device in u, and every descriptor for that device was one before. */
  ghost predicate StillHeld(t: Table, u: Table, h: nat)
    requires h < MAX_FD == |t.slots|
  {
    && |u.slots| == MAX_FD && u.slots[h].Holds() && u.slots[h].dev == t.slots[h].dev
    && forall i :: 0 <= i < MAX_FD && u.slots[i].dev == t.slots[h].dev ==> t.slots[i].dev == t.slots[h].dev
  }

  lemma OpenStillHeld(t: Table, h: nat, target: Target, mode: Word, driver: int)
    requires Inv(t) && h < MAX_FD && t.slots[h].Holds()
    ensures StillHeld(t, Opened(t, target, mode, driver).0, h)
    ensures target == t.slots[h].dev ==> Opened(t, target, mode, driver).1 < 0
  {
    assert Placed(t.slots, t.maxFd, h);
    OpenSucceedsIff(t, target, mode, driver);
    var n := LowestFree(t.slots, 0);
    if target != Nothing && n < MAX_FD {
      assert 3 <= n && n != h;
      assert Release(Taken(t, target, mode), n).slots == t.slots[n := FREE_SLOT];
    }
  }

  lemma SparedStep(t: Table, op: Op, h: nat)
    requires Inv(t) && Defined(t, op) && h < MAX_FD && t.slots[h].Holds() && Spares(op, h)
    ensures StillHeld(t, Next(t, op).0, h)
  {
    assert Placed(t.slots, t.maxFd, h);
    if op.Open? {
      OpenStillHeld(t, h, op.target, op.mode, op.driver);
    } else if op.Redirect? {
      OpenStillHeld(t, h, op.target, op.mode, op.driver);
      if Opened(t, op.target, op.mode, op.driver).1 >= 0 {
        OpenedFresh(t, op.target, op.mode, op.driver);
      }
    }
  }

  /** While a device is held, no new descriptor for it comes into being, however long the run. */
  lemma {:induction false} HeldDeviceGainsNone(t: Table, ops: seq<Op>, h: nat)
    requires Inv(t) && AllDefined(t, ops) && h < MAX_FD && t.slots[h].Holds()
    requires forall k :: 0 <= k < |ops| ==> Spares(ops[k], h)
    ensures StillHeld(t, Run(t, ops), h)
    decreases |ops|
  {
    if ops != [] {
      SparedStep(t, ops[0], h);
      NextInv(t, ops[0]);
      HeldDeviceGainsNone(Next(t, ops[0]).0, ops[1..], h);
    }
  }

  ghost predicate Shared(t: Table, fd: nat)
    requires fd < |t.slots|
  {
    exists i: nat :: i < |t.slots| && i != fd && t.slots[i].dev == t.slots[fd].dev
  }

  /** A lock is granted on a device that another descriptor still refers to exactly when the one such
      descriptor is the one at the high-water mark, which the scan does not visit. */
  lemma GrantedThoughSharedIff(t: Table, fd: nat)
    requires Inv(t) && fd < MAX_FD && t.slots[fd].flags[DEV] && !t.slots[fd].Free()
    ensures 3 <= t.maxFd < MAX_FD
    ensures Next(t, Ioctl(fd, Lock, false, 0)).1 == 0 && Shared(t, fd) <==>
      !SharedBelow(t, fd) && fd != t.maxFd && t.slots[t.maxFd].dev == t.slots[fd].dev
  {
    assert Placed(t.slots, t.maxFd, fd);
    if !SharedBelow(t, fd) && Shared(t, fd) {
      var i: nat :| i < |t.slots| && i != fd && t.slots[i].dev == t.slots[fd].dev;
      assert Placed(t.slots, t.maxFd, i);
    }
  }

  /** It does happen: after two opens of one device, the first may lock it although the second stays open. */
  lemma GrantedThoughShared(d: nat)
    requires d != 0
    ensures var ops := [Open(Device(d), Mask(0), 0), Open(Device(d), Mask(0), 0), Ioctl(3, Lock, false, 0)];
      AllDefined(Boot(), ops) && var t := Run(Boot(), ops);
      |t.slots| == MAX_FD && t.slots[3].Holds() && t.slots[3].dev == t.slots[4].dev == Device(d)
  {
    var ops := [Open(Device(d), Mask(0), 0), Open(Device(d), Mask(0), 0), Ioctl(3, Lock, false, 0)];
    BootInv();
    var t0 := Boot();
    OpenSucceedsIff(t0, Device(d), Mask(0), 0);
    assert LowestFree(t0.slots, 0) == 3;
    var t1 := Next(t0, ops[0]).0;
    NextInv(t0, ops[0]);
    OpenSucceedsIff(t1, Device(d), Mask(0), 0);
    var t2 := Next(t1, ops[1]).0;
    assert !t1.slots[3].Free() && t1.slots[4].Free() && LowestFree(t1.slots, 0) == 4;
    assert !SharedBelow(t2, 3);
    var t3 := Next(t2, ops[2]).0;
    RunCons(t2, ops[2], []);
    RunCons(t1, ops[1], [ops[2]]);
    RunCons(t0, ops[0], [ops[1], ops[2]]);
    assert [ops[0]] + [ops[1], ops[2]] == ops;
  }

  // The pool as the HAL updates it in place.

  class Pool {
    const list: array<Slot>
    var maxFd: int
    var errno: int

    ghost function State(): Table
      reads this, list
    {
      Table(list[..], maxFd, errno)
    }

    constructor ()
      ensures fresh(list) && State() == Boot() && Inv(State())
      // three descriptors for the null device, all others free, and the mark below them
      ensures list.Length == 32 && maxFd == -1 && errno == 0
      ensures forall i :: 0 <= i < 32 ==> list[i].dev == if i <= 2 then Device(0) else Nothing
      ensures forall i, k :: 0 <= i < 32 && 0 <= k < WIDTH ==> !list[i].flags[k]
    {
      list := new Slot[MAX_FD](i => if i <= 2 then Slot(Device(0), Mask(0)) else FREE_SLOT);
      maxFd, errno := -1, 0;
      new;
      assert list[..] == Boot().slots;
      BootInv();
      assert forall k :: 0 <= k < WIDTH ==> !Mask(0)[k];
      assert forall i :: 0 <= i < MAX_FD ==> list[i].flags == Mask(0);
    }

    /** Take the lowest free descriptor and raise the high-water mark. */
    method GetFd(dev: Target) returns (rc: int)
      requires dev != Nothing && list.Length == MAX_FD
      modifies this`maxFd, list
      ensures var n := LowestFree(old(list[..]), 0);
        if n == MAX_FD then rc == -EMFILE && State() == old(State())
        else rc == n && list[..] == old(list[..])[n := Slot(dev, old(list[n].flags))] && maxFd == Max(n, old(maxFd))
    {
      rc := -EMFILE;
      for i := 0 to MAX_FD
        invariant rc == -EMFILE && maxFd == old(maxFd) && list[..] == old(list[..])
        invariant LowestFree(list[..], 0) == LowestFree(list[..], i)
      {
        if list[i].Free() {
          list[i] := Slot(dev, list[i].flags);
          if i > maxFd {
            maxFd := i;
          }
          rc := i;
          break;
        }
      }
    }

    method ReleaseFd(fd: int)
      requires fd < list.Length
      modifies list
      ensures State() == Release(old(State()), fd)
    {
      if fd > 2 {
        list[fd] := FREE_SLOT;
      }
    }

    /** Mark the descriptor as a device's and look for a holder of that device, up to the high-water mark. */
    method FileLocked(fd: nat) returns (rc: int)
      requires fd < list.Length && 0 <= maxFd < list.Length
      modifies list
      ensures list[..] == old(list[..])[fd := Slot(old(list[fd].dev), old(list[fd].flags)[DEV := true])]
      ensures rc == if HeldElsewhere(State(), fd) then -EACCES else 0
    {
      list[fd] := Slot(list[fd].dev, list[fd].flags[DEV := true]);
      label Marked:
      var i := 0;
      while i <= maxFd
        invariant 0 <= i <= maxFd + 1 && list[..] == old@Marked(list[..])
        invariant forall k :: 0 <= k < i && k != fd && list[k].dev == list[fd].dev ==> !list[k].Holds()
      {
        if list[i].dev == list[fd].dev && list[i].Holds() && i != fd {
          assert State().slots[i] == list[i];
          return -EACCES;
        }
        i := i + 1;
      }
      rc := 0;
    }

    /** Open a device or a file system. */
    method Open(target: Target, mode: Word, driver: int) returns (rc: int)
      requires list.Length == MAX_FD && Inv(State())
      modifies this, list
      ensures (State(), rc) == Opened(old(State()), target, mode, driver) && Inv(State())
    {
      ghost var t := State();
      OpenInv(t, target, mode, driver);
      var index, status := -1, -ENODEV;
      if target != Nothing {
        index := GetFd(target);
        if index < 0 {
          status := index;
        } else {
          list[index] := Slot(target, UserFlags(mode));
          status := 0;
          if target.Device? {
            status := FileLocked(index);
          }
          assert State() == Taken(t, target, mode);
          if status >= 0 {
            status := driver;
          }
        }
      }
      if status < 0 {
        ReleaseFd(index);
        errno := -status;
        return -1;
      }
      rc := index;
    }

    /** Grant exclusive access unless a descriptor below the high-water mark shares the device. */
    method FdLock(fd: nat) returns (rc: int)
      requires fd < list.Length && maxFd < list.Length
      modifies list
      ensures rc == if old(SharedBelow(State(), fd)) then -EACCES else 0
      ensures list[..] == if rc == 0 then old(list[..])[fd := old(list[fd]).(flags := old(list[fd]).flags[EXCL := true])]
                          else old(list[..])
    {
      var i := 0;
      while i < maxFd
        invariant 0 <= i && (i <= maxFd || i == 0)
        invariant forall k :: 0 <= k < i && k != fd ==> list[k].dev != list[fd].dev
        decreases maxFd - i
      {
        if i != fd && list[i].dev == list[fd].dev {
          assert State().slots[i] == list[i];
          return -EACCES;
        }
        i := i + 1;
      }
      assert !SharedBelow(State(), fd);
      list[fd] := list[fd].(flags := list[fd].flags[EXCL := true]);
      rc := 0;
    }

    method FdUnlock(fd: nat) returns (rc: int)
      requires fd < list.Length
      modifies list
      ensures rc == 0 && list[..] == old(list[..])[fd := old(list[fd]).(flags := old(list[fd]).flags[EXCL := false])]
    {
      list[fd] := list[fd].(flags := list[fd].flags[EXCL := false]);
      rc := 0;
    }

    method Ioctl(fd: int, req: Request, hasDriver: bool, driver: int) returns (rc: int)
      requires Inv(State()) && Defined(State(), Op.Ioctl(fd, req, hasDriver, driver))
      modifies this, list
      ensures (State(), rc) == Next(old(State()), Op.Ioctl(fd, req, hasDriver, driver)) && Inv(State())
    {
      NextInv(State(), Op.Ioctl(fd, req, hasDriver, driver));
      if fd < 0 {
        rc := -EBADFD;
      } else if list[fd].flags[DEV] && req == Lock {
        rc := FdLock(fd);
      } else if list[fd].flags[DEV] && req == Unlock {
        rc := FdUnlock(fd);
      } else if hasDriver {
        rc := driver;
      } else {
        rc := -ENOTTY;
      }
      if rc < 0 {
        errno := -rc;
      }
    }

    method Close(fd: int, driver: int) returns (rc: int)
      requires Inv(State()) && Defined(State(), Op.Close(fd, driver))
      modifies this, list
      ensures (State(), rc) == Next(old(State()), Op.Close(fd, driver)) && Inv(State())
    {
      NextInv(State(), Op.Close(fd, driver));
      if fd < 0 {
        errno := EBADFD;
        return -1;
      }
      ReleaseFd(fd);
      if driver < 0 {
        errno := -driver;
        return -1;
      }
      rc := 0;
    }

    /** Only the append and non-blocking flags can be changed; the two marks are neither changed nor shown. */
    method Fcntl(fd: int, cmd: FcntlCommand) returns (rc: int, shown: Word)
      requires Inv(State()) && Defined(State(), Op.Fcntl(fd, cmd))
      modifies this, list
      ensures (State(), rc) == Next(old(State()), Op.Fcntl(fd, cmd)) && Inv(State())
      ensures fd >= 0 && cmd == GetFlags ==>
        !shown[30] && !shown[31] && forall k :: 0 <= k < 30 ==> shown[k] == list[fd].flags[k]
    {
      NextInv(State(), Op.Fcntl(fd, cmd));
      rc, shown := -1, Mask(0);
      if fd < 0 {
        errno := EBADFD;
        return;
      }
      match cmd
      case GetFlags =>
        rc, shown := 0, UserFlags(list[fd].flags);
      case SetFlags(arg) =>
        list[fd] := list[fd].(flags := FcntlFlags(list[fd].flags, arg));
        rc := 0;
      case BadCommand =>
        errno := EINVAL;
    }

    /** Point a standard descriptor at a freshly opened target; nothing changes if the open fails. */
    method OpenFd(std: nat, target: Target, mode: Word, driver: int)
      requires Inv(State()) && std <= 2
      modifies this, list
      ensures State() == Next(old(State()), Op.Redirect(std, target, mode, driver)).0 && Inv(State())
    {
      NextInv(State(), Op.Redirect(std, target, mode, driver));
      var fd := Open(target, mode, driver);
      if fd >= 0 {
        OpenedFresh(old(State()), target, mode, driver);
        list[std] := list[fd];
        ReleaseFd(fd);
      }
    }

    /** Boot: standard out, in and error, in this order. */
    method IoRedirect(out: Op, inp: Op, err: Op)
      requires Inv(State()) && out.Redirect? && inp.Redirect? && err.Redirect?
      requires out.std == 1 && inp.std == 0 && err.std == 2
      modifies this, list
      ensures AllDefined(old(State()), [out] + [inp, err])
      ensures State() == Run(old(State()), [out] + [inp, err]) && Inv(State())
    {
      ghost var t := State();
      OpenFd(1, out.target, out.mode, out.driver);
      ghost var t1 := State();
      OpenFd(0, inp.target, inp.mode, inp.driver);
      ghost var t2 := State();
      OpenFd(2, err.target, err.mode, err.driver);
      RunCons(t2, err, []);
      RunCons(t1, inp, [err]);
      assert [inp] + [err] == [inp, err];
      RunCons(t, out, [inp, err]);
    }
  }
}
