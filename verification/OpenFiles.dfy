/** The open-file table of usr/root/romfs_server.c: 32 slots, five quadratic probes a key, and
    tombstones for closed files. */
module OpenFiles {
  import opened Bits
  import opened Words

  const FILE_STATE_LOG: nat := 5
  const FILE_STATE_COUNT: nat := 32

  datatype Status = Free | Used | Tombstone

  datatype Key = Key(owner: Word, fd: Word)

  /** A file of the rom image: where it lies and what romfs_file_info said of it. */
  datatype File = File(offset: nat, info: nat)

  datatype Slot = Slot(status: Status, key: Key, file: File)

  type Table = t: seq<Slot> | |t| == 32 witness seq(32, _ => Slot(Free, Key(0, 0), File(0, 0)))

  // ---------- Hashing ----------

  function HashCombine(a: Word, b: Word): nat {
    Xor(a, (b + 0x9e3779b9 + a * 64 % WORD_LIMIT + a / 4) % WORD_LIMIT)
  }

  function Home(key: Key): (h: nat)
    ensures h < FILE_STATE_COUNT
  {
    HashCombine(key.owner, key.fd) % FILE_STATE_COUNT
  }

  /** The slot of probe i. */
  function Probe(home: nat, i: nat): (idx: nat)
    ensures idx < FILE_STATE_COUNT
  {
    (home + i * i) % FILE_STATE_COUNT
  }

  /** The probes of a key are five different slots. */
  lemma {:induction false} ProbesDiffer(home: nat, i: nat, j: nat)
    requires i < FILE_STATE_LOG && j < FILE_STATE_LOG && i != j
    ensures Probe(home, i) != Probe(home, j)
  {
    assert i * i == 0 || i * i == 1 || i * i == 4 || i * i == 9 || i * i == 16;
    assert j * j == 0 || j * j == 1 || j * j == 4 || j * j == 9 || j * j == 16;
  }

  // ---------- The searches ----------

  predicate Holds(slot: Slot, key: Key) {
    slot.status == Used && slot.key == key
  }

  /** find_vfs_file_state_insertion_point, from probe i on. */
  function InsertionPoint(t: Table, home: nat, key: Key, i: nat): (r: Option<nat>)
    requires i <= FILE_STATE_LOG
    ensures r.Some? ==> i <= r.value < FILE_STATE_LOG
    decreases FILE_STATE_LOG - i
  {
    if i == FILE_STATE_LOG then None
    else
      var slot := t[Probe(home, i)];
      if slot.status != Used || slot.key == key then Some(i) else InsertionPoint(t, home, key, i + 1)
  }

  /** find_vfs_file_state and the search of delete_vfs_file_state, from probe i on. */
  function Search(t: Table, home: nat, key: Key, i: nat): (r: Option<nat>)
    requires i <= FILE_STATE_LOG
    ensures r.Some? ==> i <= r.value < FILE_STATE_LOG && Holds(t[Probe(home, r.value)], key)
    decreases FILE_STATE_LOG - i
  {
    if i == FILE_STATE_LOG then None
    else
      var slot := t[Probe(home, i)];
      if slot.status == Free then None
      else if Holds(slot, key) then Some(i)
      else Search(t, home, key, i + 1)
  }

  // ---------- The abstract table ----------

  /** The files open under a key, in the order of the probes. */
  function Stack(t: Table, home: nat, key: Key, i: nat): (s: seq<File>)
    requires i <= FILE_STATE_LOG
    decreases FILE_STATE_LOG - i
  {
    if i == FILE_STATE_LOG then []
    else
      var slot := t[Probe(home, i)];
      (if Holds(slot, key) then [slot.file] else []) + Stack(t, home, key, i + 1)
  }

  function Files(t: Table, key: Key): seq<File> {
    Stack(t, Home(key), key, 0)
  }

  /** No probe before a used entry's own is free. */
  ghost predicate NoGap(t: Table) {
    forall key: Key, i, j :: 0 <= j < i < FILE_STATE_LOG && Holds(t[Probe(Home(key), i)], key) ==>
      t[Probe(Home(key), j)].status != Free
  }

  /** The first entry from probe i on, if the search does not stop at a free slot first. */
  lemma {:induction false} SearchFindsTop(t: Table, home: nat, key: Key, i: nat)
    requires i <= FILE_STATE_LOG
    requires forall k, j :: i <= j < k < FILE_STATE_LOG && Holds(t[Probe(home, k)], key) ==>
      t[Probe(home, j)].status != Free
    ensures Search(t, home, key, i).None? <==> Stack(t, home, key, i) == []
    ensures Search(t, home, key, i).Some? ==>
      Stack(t, home, key, i)[0] == t[Probe(home, Search(t, home, key, i).value)].file
    decreases FILE_STATE_LOG - i
  {
    if i < FILE_STATE_LOG {
      var slot := t[Probe(home, i)];
      if slot.status == Free {
        NothingHeld(t, home, key, i);
      } else if !Holds(slot, key) {
        SearchFindsTop(t, home, key, i + 1);
      }
    }
  }

  lemma {:induction false} NothingHeld(t: Table, home: nat, key: Key, i: nat)
    requires i <= FILE_STATE_LOG
    requires forall k :: i <= k < FILE_STATE_LOG ==> !Holds(t[Probe(home, k)], key)
    ensures Stack(t, home, key, i) == []
    decreases FILE_STATE_LOG - i
  {
    if i < FILE_STATE_LOG {
      NothingHeld(t, home, key, i + 1);
    }
  }

  /** Lookup reads the top of the key's stack. */
  lemma {:induction false} LookupReadsTop(t: Table, key: Key)
    requires NoGap(t)
    ensures Search(t, Home(key), key, 0).None? <==> Files(t, key) == []
    ensures Search(t, Home(key), key, 0).Some? ==>
      t[Probe(Home(key), Search(t, Home(key), key, 0).value)].file == Files(t, key)[0]
  {
    SearchFindsTop(t, Home(key), key, 0);
  }

  /** A slot that a key's entries do not use may change as long as it still does not hold the key. */
  lemma {:induction false} OtherKeysKeep(t: Table, t': Table, idx: nat, home: nat, key: Key, i: nat)
    requires i <= FILE_STATE_LOG && idx < FILE_STATE_COUNT
    requires t' == t[idx := t'[idx]] && !Holds(t[idx], key) && !Holds(t'[idx], key)
    ensures Stack(t', home, key, i) == Stack(t, home, key, i)
    decreases FILE_STATE_LOG - i
  {
    if i < FILE_STATE_LOG {
      OtherKeysKeep(t, t', idx, home, key, i + 1);
    }
  }

  /** Entries at later probes do not see a change at probe p. */
  lemma {:induction false} LaterProbesKeep(t: Table, t': Table, home: nat, key: Key, p: nat, i: nat)
    requires p < i <= FILE_STATE_LOG
    requires t' == t[Probe(home, p) := t'[Probe(home, p)]]
    ensures Stack(t', home, key, i) == Stack(t, home, key, i)
    decreases FILE_STATE_LOG - i
  {
    if i < FILE_STATE_LOG {
      ProbesDiffer(home, p, i);
      LaterProbesKeep(t, t', home, key, p, i + 1);
    }
  }

  // ---------- Opening ----------

  datatype OpenResult = Opened | NoRoom | InUse

  /** The table effect of an open whose file exists. */
  function Open(t: Table, key: Key, file: File): (OpenResult, Table) {
    match InsertionPoint(t, Home(key), key, 0)
    case None => (NoRoom, t)
    case Some(i) =>
      var idx := Probe(Home(key), i);
      if t[idx].status == Used then (InUse, t)
      else (Opened, t[idx := Slot(Used, key, file)])
  }

  lemma {:induction false} InsertionPointIs(t: Table, home: nat, key: Key, i: nat)
    requires i <= FILE_STATE_LOG
    ensures var r := InsertionPoint(t, home, key, i);
      var end := if r.Some? then r.value else FILE_STATE_LOG;
      (forall j :: i <= j < end ==> t[Probe(home, j)].status == Used && t[Probe(home, j)].key != key) &&
      (r.Some? ==> t[Probe(home, end)].status != Used || t[Probe(home, end)].key == key)
    decreases FILE_STATE_LOG - i
  {
    if i < FILE_STATE_LOG {
      InsertionPointIs(t, home, key, i + 1);
    }
  }

  lemma {:induction false} PushAt(t: Table, t': Table, home: nat, key: Key, file: File, p: nat, i: nat)
    requires i <= p < FILE_STATE_LOG
    requires forall j :: i <= j < p ==> !Holds(t[Probe(home, j)], key)
    requires !Holds(t[Probe(home, p)], key) && t' == t[Probe(home, p) := Slot(Used, key, file)]
    ensures Stack(t', home, key, i) == [file] + Stack(t, home, key, i)
    decreases p - i
  {
    if i == p {
      LaterProbesKeep(t, t', home, key, p, p + 1);
    } else {
      ProbesDiffer(home, p, i);
      PushAt(t, t', home, key, file, p, i + 1);
    }
  }

  /** Opening pushes the file in front of the key's stack or changes nothing, and leaves every other
      key alone. It finds no room just when the key's five slots are in use by other keys, and the key
      in use just when its first slot that is not another key's holds the key. */
  lemma {:induction false} OpenPushes(t: Table, key: Key, file: File)
    requires NoGap(t)
    ensures var (r, t') := Open(t, key, file);
      NoGap(t') &&
      (r == Opened ==> Files(t', key) == [file] + Files(t, key)) &&
      (r != Opened ==> t' == t) &&
      (forall other: Key :: other != key ==> Files(t', other) == Files(t, other)) &&
      (r == NoRoom <==> forall i :: 0 <= i < FILE_STATE_LOG ==>
        t[Probe(Home(key), i)].status == Used && t[Probe(Home(key), i)].key != key) &&
      (r == InUse ==> Files(t, key) != [])
  {
    InsertionPointIs(t, Home(key), key, 0);
    var (r, t') := Open(t, key, file);
    if r == InUse {
      HeldIsThere(t, Home(key), key, InsertionPoint(t, Home(key), key, 0).value, 0);
    } else if r == Opened {
      var p := InsertionPoint(t, Home(key), key, 0).value;
      PushAt(t, t', Home(key), key, file, p, 0);
      PushLeavesNoGap(t, t', key, file, p);
      forall other: Key | other != key
        ensures Files(t', other) == Files(t, other)
      {
        OtherKeysKeep(t, t', Probe(Home(key), p), Home(other), other, 0);
      }
    }
  }

  lemma {:induction false} PushLeavesNoGap(t: Table, t': Table, key: Key, file: File, p: nat)
    requires NoGap(t) && p < FILE_STATE_LOG
    requires forall j :: 0 <= j < p ==> t[Probe(Home(key), j)].status != Free
    requires t' == t[Probe(Home(key), p) := Slot(Used, key, file)]
    ensures NoGap(t')
  {
    forall k: Key, i, j | 0 <= j < i < FILE_STATE_LOG && Holds(t'[Probe(Home(k), i)], k)
      ensures t'[Probe(Home(k), j)].status != Free
    {
      if Probe(Home(k), i) == Probe(Home(key), p) {
        assert k == key;
        if i != p {
          ProbesDiffer(Home(key), i, p);
        }
      } else {
        assert Holds(t[Probe(Home(k), i)], k);
      }
    }
  }

  lemma {:induction false} HeldIsThere(t: Table, home: nat, key: Key, p: nat, i: nat)
    requires i <= p < FILE_STATE_LOG && Holds(t[Probe(home, p)], key)
    ensures Stack(t, home, key, i) != []
    decreases p - i
  {
    if i < p {
      HeldIsThere(t, home, key, p, i + 1);
    }
  }

  // ---------- Closing ----------

  /** delete_vfs_file_state. */
  function Close(t: Table, key: Key): (bool, Table) {
    match Search(t, Home(key), key, 0)
    case None => (false, t)
    case Some(i) => (true, t[Probe(Home(key), i) := t[Probe(Home(key), i)].(status := Tombstone)])
  }

  lemma {:induction false} PopAt(t: Table, t': Table, home: nat, key: Key, p: nat, i: nat)
    requires i <= p < FILE_STATE_LOG && Search(t, home, key, i) == Some(p)
    requires var idx := Probe(home, p); t' == t[idx := t[idx].(status := Tombstone)]
    ensures Stack(t, home, key, i) != [] && Stack(t', home, key, i) == Stack(t, home, key, i)[1..]
    decreases p - i
  {
    var idx := Probe(home, i);
    if Holds(t[idx], key) {
      LaterProbesKeep(t, t', home, key, p, p + 1);
      assert Stack(t, home, key, i) == [t[idx].file] + Stack(t, home, key, i + 1);
    } else {
      assert Search(t, home, key, i) == Search(t, home, key, i + 1);
      ProbesDiffer(home, p, i);
      PopAt(t, t', home, key, p, i + 1);
    }
  }

  /** Closing pops the key's stack, or fails just when it is empty, and leaves every other key alone. */
  lemma {:induction false} ClosePops(t: Table, key: Key)
    requires NoGap(t)
    ensures var (ok, t') := Close(t, key);
      NoGap(t') &&
      (ok <==> Files(t, key) != []) &&
      (if ok then Files(t', key) == Files(t, key)[1..] else t' == t) &&
      (forall other: Key :: other != key ==> Files(t', other) == Files(t, other))
  {
    LookupReadsTop(t, key);
    var (ok, t') := Close(t, key);
    if ok {
      PopAt(t, t', Home(key), key, Search(t, Home(key), key, 0).value, 0);
      var idx := Probe(Home(key), Search(t, Home(key), key, 0).value);
      forall other: Key | other != key
        ensures Files(t', other) == Files(t, other)
      {
        OtherKeysKeep(t, t', idx, Home(other), other, 0);
      }
      TombstoneLeavesNoGap(t, t', idx);
    }
  }

  lemma {:induction false} TombstoneLeavesNoGap(t: Table, t': Table, idx: nat)
    requires NoGap(t) && idx < FILE_STATE_COUNT && t' == t[idx := t[idx].(status := Tombstone)]
    ensures NoGap(t')
  {
    forall k: Key, i, j | 0 <= j < i < FILE_STATE_LOG && Holds(t'[Probe(Home(k), i)], k)
      ensures t'[Probe(Home(k), j)].status != Free
    {
      assert Holds(t[Probe(Home(k), i)], k);
    }
  }

  // ---------- Opening a key that is open already ----------

  /** Reopening a live key is refused, as its error number promises, exactly when no tombstone lies on
      a probe before the key's first entry; otherwise a second entry is made in front of it. */
  lemma {:induction false} ReopenSucceedsIff(t: Table, key: Key, file: File)
    requires NoGap(t) && Files(t, key) != []
    ensures Search(t, Home(key), key, 0).Some?
    ensures Open(t, key, file).0 == Opened <==>
      exists j :: 0 <= j < Search(t, Home(key), key, 0).value && t[Probe(Home(key), j)].status == Tombstone
    ensures Open(t, key, file).0 != Opened ==> Open(t, key, file).0 == InUse
  {
    LookupReadsTop(t, key);
    InsertionPointIs(t, Home(key), key, 0);
    SearchIsFirst(t, Home(key), key, 0);
    var top := Search(t, Home(key), key, 0).value;
    var r := InsertionPoint(t, Home(key), key, 0);
    if r.Some? && r.value < top {
      assert t[Probe(Home(key), r.value)].status == Tombstone;
    }
  }

  lemma {:induction false} SearchIsFirst(t: Table, home: nat, key: Key, i: nat)
    requires i <= FILE_STATE_LOG
    ensures Search(t, home, key, i).Some? ==>
      forall j :: i <= j < Search(t, home, key, i).value ==>
        t[Probe(home, j)].status != Free && !Holds(t[Probe(home, j)], key)
    decreases FILE_STATE_LOG - i
  {
    if i < FILE_STATE_LOG {
      SearchIsFirst(t, home, key, i + 1);
    }
  }

  // ---------- The handlers ----------

  datatype Errno = EINVAL | ENOMEM | EBADF | EIO | ENOENT

  datatype Reply = Ok(words: seq<Word>) | Error(errno: Errno)

  /** What romfs answers to a request: the offset of a file and then what is known of it. */
  datatype RomAnswer = NoFile | NoInfo(offset: nat) | Found(file: File)

  /** handle_vfs_openroot; untyped and typed are the counts of the message tag. */
  function OpenRoot(t: Table, from: Word, fd: Word, untyped: nat, typed: nat, root: RomAnswer): (Reply, Table) {
    if untyped != 1 || typed != 0 then (Error(EINVAL), t)
    else
      var (r, t') := Open(t, Key(from, fd), if root.Found? then root.file else File(0, 0));
      match r
      case NoRoom => (Error(ENOMEM), t)
      case InUse => (Error(EBADF), t)
      case Opened => if root.Found? then (Ok([fd]), t') else (Error(EIO), t)
  }

  /** The end of handle_vfs_openat, what romfs says of the file being known. */
  function OpenFound(t: Table, key: Key, answer: RomAnswer): (Reply, Table) {
    if answer.NoFile? then (Error(ENOENT), t)
    else
      var (r, t') := Open(t, key, if answer.Found? then answer.file else File(0, 0));
      match r
      case NoRoom => (Error(ENOMEM), t)
      case InUse => (Error(EBADF), t)
      case Opened => if answer.Found? then (Ok([key.fd]), t') else (Error(EIO), t)
  }

  /** handle_vfs_openat; simple says that the item is a string item that is not compound, and inDir answers for the
      directory at a given offset. */
  function OpenAt(t: Table, from: Word, fd: Word, newFd: Word, untyped: nat, typed: nat, simple: bool,
      inDir: nat -> RomAnswer): (Reply, Table) {
    if untyped != 2 || typed != 2 || !simple then (Error(EINVAL), t)
    else
      match Search(t, Home(Key(from, fd)), Key(from, fd), 0)
      case None => (Error(EINVAL), t)
      case Some(i) => OpenFound(t, Key(from, newFd), inDir(t[Probe(Home(Key(from, fd)), i)].file.offset))
  }

  /** handle_vfs_close. */
  function CloseFd(t: Table, from: Word, fd: Word, untyped: nat, typed: nat): (Reply, Table) {
    if untyped != 1 || typed != 0 then (Error(EINVAL), t)
    else
      var (ok, t') := Close(t, Key(from, fd));
      if ok then (Ok([]), t') else (Error(ENOENT), t)
  }

  // ---------- Runs against stacks of files ----------

  datatype Request =
    | OpenRootRequest(from: Word, fd: Word, untyped: nat, typed: nat, root: RomAnswer)
    | OpenAtRequest(from: Word, fd: Word, newFd: Word, untyped: nat, typed: nat, simple: bool, inDir: nat -> RomAnswer)
    | CloseRequest(from: Word, fd: Word, untyped: nat, typed: nat)

  function Serve(t: Table, req: Request): (Reply, Table) {
    match req
    case OpenRootRequest(from, fd, u, ty, root) => OpenRoot(t, from, fd, u, ty, root)
    case OpenAtRequest(from, fd, newFd, u, ty, simple, inDir) => OpenAt(t, from, fd, newFd, u, ty, simple, inDir)
    case CloseRequest(from, fd, u, ty) => CloseFd(t, from, fd, u, ty)
  }

  /** The abstract table: for every key the stack of its open files. */
  type Stacks = map<Key, seq<File>>

  function At(m: Stacks, key: Key): seq<File> {
    if key in m then m[key] else []
  }

  /** What a request that was answered Ok does to the stacks, as read off the stacks alone: an open
      pushes the file found, looked up from the top file of the directory's key; a close pops. */
  function Meaning(m: Stacks, req: Request, reply: Reply): (r: Stacks) {
    if reply.Error? then m
    else
      match req
      case OpenRootRequest(from, fd, _, _, root) =>
        if root.Found? then m[Key(from, fd) := [root.file] + At(m, Key(from, fd))] else m
      case OpenAtRequest(from, fd, newFd, _, _, _, inDir) =>
        var dir := At(m, Key(from, fd));
        if dir != [] && inDir(dir[0].offset).Found?
        then m[Key(from, newFd) := [inDir(dir[0].offset).file] + At(m, Key(from, newFd))] else m
      case CloseRequest(from, fd, _, _) =>
        var files := At(m, Key(from, fd));
        if files != [] then m[Key(from, fd) := files[1..]] else m
  }

  ghost predicate Represents(t: Table, m: Stacks) {
    NoGap(t) && forall key: Key :: Files(t, key) == At(m, key)
  }

  lemma {:induction false} OpenRepresents(t: Table, m: Stacks, key: Key, file: File)
    requires Represents(t, m)
    ensures Open(t, key, file).0 == Opened ==> Represents(Open(t, key, file).1, m[key := [file] + At(m, key)])
    ensures Open(t, key, file).0 != Opened ==> Open(t, key, file).1 == t
  {
    OpenPushes(t, key, file);
  }

  lemma {:induction false} CloseRepresents(t: Table, m: Stacks, key: Key)
    requires Represents(t, m)
    ensures Close(t, key).0 <==> At(m, key) != []
    ensures if Close(t, key).0 then Represents(Close(t, key).1, m[key := At(m, key)[1..]]) else Close(t, key).1 == t
  {
    ClosePops(t, key);
  }

  lemma {:induction false} OpenRootRefines(t: Table, m: Stacks, from: Word, fd: Word, u: nat, ty: nat, root: RomAnswer)
    requires Represents(t, m)
    ensures var (reply, t') := OpenRoot(t, from, fd, u, ty, root);
      (reply.Error? ==> t' == t) && (reply.Ok? ==> u == 1 && ty == 0 && root.Found?) &&
      (reply.Ok? ==> Represents(t', m[Key(from, fd) := [root.file] + At(m, Key(from, fd))]))
  {
    var key := Key(from, fd);
    match root
    case Found(file) =>
      OpenRepresents(t, m, key, file);
      var (r, t') := Open(t, key, file);
      assert u == 1 && ty == 0 && r == Opened ==> OpenRoot(t, from, fd, u, ty, root) == (Ok([fd]), t');
    case NoFile =>
    case NoInfo(_) =>
  }

  lemma {:induction false} OpenFoundRefines(t: Table, m: Stacks, key: Key, answer: RomAnswer)
    requires Represents(t, m)
    ensures var (reply, t') := OpenFound(t, key, answer);
      (reply.Error? ==> t' == t) && (reply.Ok? ==> answer.Found?) &&
      (reply.Ok? ==> Represents(t', m[key := [answer.file] + At(m, key)]))
  {
    match answer
    case Found(file) => OpenRepresents(t, m, key, file);
    case NoFile =>
    case NoInfo(_) =>
  }

  lemma {:induction false} OpenAtRefines(t: Table, m: Stacks, from: Word, fd: Word, newFd: Word, u: nat, ty: nat,
      simple: bool, inDir: nat -> RomAnswer)
    requires Represents(t, m)
    ensures var (reply, t') := OpenAt(t, from, fd, newFd, u, ty, simple, inDir);
      var dir := At(m, Key(from, fd));
      (reply.Error? ==> t' == t) &&
      (reply.Ok? ==> u == 2 && ty == 2 && simple && dir != [] && inDir(dir[0].offset).Found?) &&
      (reply.Ok? ==> Represents(t', m[Key(from, newFd) := [inDir(dir[0].offset).file] + At(m, Key(from, newFd))]))
  {
    LookupReadsTop(t, Key(from, fd));
    var dir := At(m, Key(from, fd));
    assert dir == Files(t, Key(from, fd));
    if dir != [] {
      OpenFoundRefines(t, m, Key(from, newFd), inDir(dir[0].offset));
    }
  }

  lemma {:induction false} CloseRefines(t: Table, m: Stacks, from: Word, fd: Word, u: nat, ty: nat)
    requires Represents(t, m)
    ensures var (reply, t') := CloseFd(t, from, fd, u, ty);
      var files := At(m, Key(from, fd));
      (reply.Ok? <==> u == 1 && ty == 0 && files != []) && (reply.Error? ==> t' == t) &&
      (reply.Ok? ==> Represents(t', m[Key(from, fd) := files[1..]]))
  {
    CloseRepresents(t, m, Key(from, fd));
  }

  /** One request is answered from the stacks: the directory of an openat is the top file of its key,
      a close fails exactly on an empty stack, and the table goes on representing the stacks. */
  lemma {:induction false} ServeRefines(t: Table, m: Stacks, req: Request)
    requires Represents(t, m)
    ensures var (reply, t') := Serve(t, req);
      Represents(t', Meaning(m, req, reply)) && (reply.Error? ==> t' == t)
  {
    var (reply, t') := Serve(t, req);
    var m' := Meaning(m, req, reply);
    match req
    case OpenRootRequest(from, fd, u, ty, root) =>
      OpenRootRefines(t, m, from, fd, u, ty, root);
      assert (reply, t') == OpenRoot(t, from, fd, u, ty, root);
      assert reply.Ok? ==> m' == m[Key(from, fd) := [root.file] + At(m, Key(from, fd))];
    case OpenAtRequest(from, fd, newFd, u, ty, simple, inDir) =>
      OpenAtRefines(t, m, from, fd, newFd, u, ty, simple, inDir);
    case CloseRequest(from, fd, u, ty) =>
      CloseRefines(t, m, from, fd, u, ty);
  }

  function Run(t: Table, reqs: seq<Request>): (seq<Reply>, Table)
    decreases |reqs|
  {
    if reqs == [] then ([], t)
    else
      var (reply, t') := Serve(t, reqs[0]);
      var (replies, t'') := Run(t', reqs[1..]);
      ([reply] + replies, t'')
  }

  function RunMeaning(m: Stacks, reqs: seq<Request>, replies: seq<Reply>): Stacks
    requires |replies| == |reqs|
    decreases |reqs|
  {
    if reqs == [] then m else RunMeaning(Meaning(m, reqs[0], replies[0]), reqs[1..], replies[1..])
  }

  /** Over any run of requests the table holds exactly the stacks that its replies imply. */
  lemma {:induction false} RunRefines(t: Table, m: Stacks, reqs: seq<Request>)
    requires Represents(t, m)
    ensures var (replies, t') := Run(t, reqs);
      |replies| == |reqs| && Represents(t', RunMeaning(m, reqs, replies))
    decreases |reqs|
  {
    if reqs != [] {
      ServeRefines(t, m, reqs[0]);
      var (reply, t') := Serve(t, reqs[0]);
      RunRefines(t', Meaning(m, reqs[0], reply), reqs[1..]);
      assert Run(t, reqs).0[1..] == Run(t', reqs[1..]).0;
    }
  }

  const EMPTY_TABLE: Table := seq(32, _ => Slot(Free, Key(0, 0), File(0, 0)))

  lemma {:induction false} EmptyRepresents()
    ensures Represents(EMPTY_TABLE, map[])
  {
    forall key: Key
      ensures Files(EMPTY_TABLE, key) == []
    {
      NothingHeld(EMPTY_TABLE, Home(key), key, 0);
    }
  }

  /** No request reopens a key that is open. */
  ghost predicate Disciplined(m: Stacks, req: Request) {
    match req
    case OpenRootRequest(from, fd, _, _, _) => At(m, Key(from, fd)) == []
    case OpenAtRequest(from, _, newFd, _, _, _, _) => At(m, Key(from, newFd)) == []
    case CloseRequest(_, _, _, _) => true
  }

  ghost predicate AllDisciplined(t: Table, m: Stacks, reqs: seq<Request>)
    decreases |reqs|
  {
    reqs == [] ||
    (Disciplined(m, reqs[0]) &&
     AllDisciplined(Serve(t, reqs[0]).1, Meaning(m, reqs[0], Serve(t, reqs[0]).0), reqs[1..]))
  }

  ghost predicate AtMostOne(m: Stacks) {
    forall key: Key :: |At(m, key)| <= 1
  }

  lemma {:induction false} MeaningStaysSingle(m: Stacks, req: Request, reply: Reply)
    requires AtMostOne(m) && Disciplined(m, req)
    ensures AtMostOne(Meaning(m, req, reply))
  {
    var m' := Meaning(m, req, reply);
    forall key: Key
      ensures |At(m', key)| <= 1
    {
      assert |At(m, key)| <= 1;
    }
  }

  /** While no client reopens a live descriptor the table is a partial map: one file at most per key. */
  lemma {:induction false} DisciplinedIsMap(t: Table, m: Stacks, reqs: seq<Request>)
    requires Represents(t, m) && AllDisciplined(t, m, reqs) && AtMostOne(m)
    ensures forall key: Key :: |Files(Run(t, reqs).1, key)| <= 1
    decreases |reqs|
  {
    if reqs == [] {
      forall key: Key
        ensures |Files(t, key)| <= 1
      {
        assert |At(m, key)| <= 1;
      }
    } else {
      ServeRefines(t, m, reqs[0]);
      var (reply, t') := Serve(t, reqs[0]);
      MeaningStaysSingle(m, reqs[0], reply);
      DisciplinedIsMap(t', Meaning(m, reqs[0], reply), reqs[1..]);
      assert Run(t, reqs).1 == Run(t', reqs[1..]).1;
    }
  }

  // ---------- From the empty table ----------

  /** The table starts empty, so after any requests it holds exactly the stacks that the replies imply. */
  lemma {:induction false} HoldsWhatWasOpened(reqs: seq<Request>)
    ensures var (replies, t) := Run(EMPTY_TABLE, reqs);
      |replies| == |reqs| && Represents(t, RunMeaning(map[], reqs, replies))
  {
    EmptyRepresents();
    RunRefines(EMPTY_TABLE, map[], reqs);
  }

  lemma {:induction false} HoldsAMap(reqs: seq<Request>)
    requires AllDisciplined(EMPTY_TABLE, map[], reqs)
    ensures forall key: Key :: |Files(Run(EMPTY_TABLE, reqs).1, key)| <= 1
  {
    EmptyRepresents();
    DisciplinedIsMap(EMPTY_TABLE, map[], reqs);
  }

  /** The slot does not depend on the bits that a wrap-around drops. */
  lemma {:induction false} WrapKeepsSlot(x: nat)
    ensures x % WORD_LIMIT % FILE_STATE_COUNT == x % FILE_STATE_COUNT
  {
    var low := x % WORD_LIMIT;
    assert x == 32 * (x / WORD_LIMIT * 0x800_0000) + low;
    assert x / 32 == x / WORD_LIMIT * 0x800_0000 + low / 32;
  }

  lemma {:induction false} SlotOfHash(a: nat, b: nat, b': nat)
    requires b % FILE_STATE_COUNT == b' % FILE_STATE_COUNT
    ensures Xor(a, b) % FILE_STATE_COUNT == Xor(a, b') % FILE_STATE_COUNT
  {
    LogSlots();
    XorMod(a, b, b', FILE_STATE_LOG);
  }

  lemma {:induction false} LogSlots()
    ensures Pow2(FILE_STATE_LOG) == FILE_STATE_COUNT
  {
    assert Pow2(2) == 4 && Pow2(5) == 8 * Pow2(2);
  }

  lemma {:induction false} PlusSlots(x: nat)
    ensures (x + 32) % FILE_STATE_COUNT == x % FILE_STATE_COUNT
  {
  }

  lemma {:induction false} HomeIs(owner: Word, fd: Word, x: nat)
    requires x == fd + 0x9e3779b9 + owner * 64 % WORD_LIMIT + owner / 4
    ensures Home(Key(owner, fd)) == Xor(owner, x % WORD_LIMIT) % FILE_STATE_COUNT
  {
  }

  /** Descriptors of one owner that are 32 apart have the same probes. */
  lemma {:induction false} SharedHome(owner: Word, fd: Word)
    requires fd + 32 < WORD_LIMIT
    ensures Home(Key(owner, fd)) == Home(Key(owner, fd + 32))
  {
    var x := fd + 0x9e3779b9 + owner * 64 % WORD_LIMIT + owner / 4;
    HomeIs(owner, fd, x);
    HomeIs(owner, fd + 32, x + 32);
    WrapKeepsSlot(x);
    WrapKeepsSlot(x + 32);
    PlusSlots(x);
    SlotOfHash(owner, x % WORD_LIMIT, (x + 32) % WORD_LIMIT);
  }

  lemma {:induction false} RunFirst(t: Table, req: Request, rest: seq<Request>, reply: Reply, t': Table)
    requires Serve(t, req) == (reply, t')
    ensures Run(t, [req] + rest) == ([reply] + Run(t', rest).0, Run(t', rest).1)
  {
    assert ([req] + rest)[1..] == rest;
  }

  lemma {:induction false} TwoEntries(t: Table, home: nat, key: Key, file: File)
    requires t[Probe(home, 0)] == t[Probe(home, 1)] == Slot(Used, key, file)
    requires !Holds(t[Probe(home, 2)], key) && !Holds(t[Probe(home, 3)], key) && !Holds(t[Probe(home, 4)], key)
    ensures Stack(t, home, key, 0) == [file, file]
  {
    NothingHeld(t, home, key, 2);
    assert Stack(t, home, key, 1) == [file] + Stack(t, home, key, 2);
    assert Stack(t, home, key, 0) == [file] + Stack(t, home, key, 1);
  }

  /** The table after opening k0 and then k1, of the same home, from a table that has room for them. */
  function Filled(t: Table, home: nat, k0: Key, k1: Key, file: File): Table
    requires home < FILE_STATE_COUNT
  {
    t[home := Slot(Used, k0, file)][Probe(home, 1) := Slot(Used, k1, file)]
  }

  lemma {:induction false} Collides(k0: Key, k1: Key, file: File)
    requires k0 != k1 && Home(k0) == Home(k1)
    ensures var h := Home(k0);
      var t1 := EMPTY_TABLE[h := Slot(Used, k0, file)];
      Open(EMPTY_TABLE, k0, file) == (Opened, t1) &&
        Open(t1, k1, file) == (Opened, Filled(EMPTY_TABLE, h, k0, k1, file))
  {
    var h := Home(k0);
    var t1 := EMPTY_TABLE[h := Slot(Used, k0, file)];
    assert Probe(h, 0) == h && Probe(h, 1) != h;
    assert InsertionPoint(EMPTY_TABLE, h, k0, 0) == Some(0);
    assert InsertionPoint(t1, h, k1, 1) == Some(1);
    assert InsertionPoint(t1, h, k1, 0) == Some(1);
  }

  lemma {:induction false} ReopensOverTombstone(k0: Key, k1: Key, file: File)
    requires k0 != k1 && Home(k0) == Home(k1)
    ensures var h := Home(k0);
      var t3 := Filled(EMPTY_TABLE, h, k0, k1, file)[h := Slot(Tombstone, k0, file)];
      && Close(Filled(EMPTY_TABLE, h, k0, k1, file), k0) == (true, t3)
      && Open(t3, k1, file) == (Opened, t3[h := Slot(Used, k1, file)])
  {
    var h := Home(k0);
    var t2 := Filled(EMPTY_TABLE, h, k0, k1, file);
    assert Probe(h, 0) == h && Probe(h, 1) != h;
    assert Search(t2, h, k0, 0) == Some(0);
    assert InsertionPoint(t2[h := Slot(Tombstone, k0, file)], h, k1, 0) == Some(0);
  }

  lemma {:induction false} SecondEntry(h: nat, k0: Key, k1: Key, file: File)
    requires h < FILE_STATE_COUNT && k0 != k1
    ensures Stack(Filled(EMPTY_TABLE, h, k0, k1, file)[h := Slot(Used, k1, file)], h, k1, 0) == [file, file]
  {
    var t := Filled(EMPTY_TABLE, h, k0, k1, file)[h := Slot(Used, k1, file)];
    FarProbe(h, 2);
    FarProbe(h, 3);
    FarProbe(h, 4);
    TwoEntries(t, h, k1, file);
  }

  lemma {:induction false} FarProbe(h: nat, i: nat)
    requires h < FILE_STATE_COUNT && 2 <= i < FILE_STATE_LOG
    ensures Probe(h, 0) == h && Probe(h, 1) != h && Probe(h, i) != h && Probe(h, i) != Probe(h, 1)
  {
    ProbesDiffer(h, 1, 0);
    ProbesDiffer(h, i, 0);
    ProbesDiffer(h, i, 1);
  }

  lemma {:induction false} RunFour(open0: Request, open1: Request, close0: Request, k0: Key, k1: Key, file: File)
    requires k0 != k1 && Home(k0) == Home(k1)
    requires open0 == OpenRootRequest(k0.owner, k0.fd, 1, 0, Found(file)) &&
      open1 == OpenRootRequest(k1.owner, k1.fd, 1, 0, Found(file))
    requires close0 == CloseRequest(k0.owner, k0.fd, 1, 0)
    ensures Run(EMPTY_TABLE, [open0] + ([open1] + ([close0] + ([open1] + [])))) ==
      ([Ok([k0.fd])] + ([Ok([k1.fd])] + ([Ok([])] + ([Ok([k1.fd])] + []))),
        Filled(EMPTY_TABLE, Home(k0), k0, k1, file)[Home(k0) := Slot(Used, k1, file)])
  {
    var h := Home(k0);
    Collides(k0, k1, file);
    ReopensOverTombstone(k0, k1, file);
    var t1, t2 := EMPTY_TABLE[h := Slot(Used, k0, file)], Filled(EMPTY_TABLE, h, k0, k1, file);
    var t3 := t2[h := Slot(Tombstone, k0, file)];
    var t4 := t2[h := Slot(Used, k1, file)];
    assert t3[h := Slot(Used, k1, file)] == t4;
    RunFirst(t3, open1, [], Ok([k1.fd]), t4);
    RunFirst(t2, close0, [open1] + [], Ok([]), t3);
    RunFirst(t1, open1, [close0] + ([open1] + []), Ok([k1.fd]), t2);
    RunFirst(EMPTY_TABLE, open0, [open1] + ([close0] + ([open1] + [])), Ok([k0.fd]), t1);
  }

  /** Reopening a live descriptor is not always refused: an owner opens fd and fd + 32, closes fd, and opens fd + 32
      again; all four requests are answered well, and the descriptor then has two entries. */
  lemma {:induction false} ReopenIsLetThrough(owner: Word, fd: Word, file: File)
    requires fd + 32 < WORD_LIMIT
    ensures var open0, open1 := OpenRootRequest(owner, fd, 1, 0, Found(file)),
      OpenRootRequest(owner, fd + 32, 1, 0, Found(file));
      var (replies, t) := Run(EMPTY_TABLE, [open0, open1, CloseRequest(owner, fd, 1, 0), open1]);
      replies == [Ok([fd]), Ok([fd + 32]), Ok([]), Ok([fd + 32])] && Files(t, Key(owner, fd + 32)) == [file, file]
  {
    var k0, k1 := Key(owner, fd), Key(owner, fd + 32);
    SharedHome(owner, fd);
    Collides(k0, k1, file);
    ReopensOverTombstone(k0, k1, file);
    var open0, open1 := OpenRootRequest(owner, fd, 1, 0, Found(file)),
      OpenRootRequest(owner, fd + 32, 1, 0, Found(file));
    var close0 := CloseRequest(owner, fd, 1, 0);
    RunFour(open0, open1, close0, k0, k1, file);
    assert [open0, open1, close0, open1] == [open0] + ([open1] + ([close0] + ([open1] + [])));
    SecondEntry(Home(k0), k0, k1, file);
  }

  // ---------- The table in place ----------

  class FileTable {
    const fileStates: array<Slot>

    predicate Valid() {
      fileStates.Length == FILE_STATE_COUNT
    }

    function Slots(): Table
      reads this, fileStates
      requires Valid()
    {
      fileStates[..]
    }

    constructor ()
      ensures Valid() && fresh(fileStates) && Slots() == EMPTY_TABLE
    {
      fileStates := new Slot[FILE_STATE_COUNT](_ => Slot(Free, Key(0, 0), File(0, 0)));
      new;
      assert fileStates[..] == EMPTY_TABLE;
    }

    /** find_vfs_file_state_insertion_point. */
    method FindInsertionPoint(key: Key) returns (r: Option<nat>)
      requires Valid()
      ensures var i := InsertionPoint(Slots(), Home(key), key, 0);
        r == if i.Some? then Some(Probe(Home(key), i.value)) else None
    {
      r := ProbeForInsertion(key, Home(key));
    }

    method ProbeForInsertion(key: Key, initialIdx: nat) returns (r: Option<nat>)
      requires Valid() && initialIdx < FILE_STATE_COUNT
      ensures var i := InsertionPoint(Slots(), initialIdx, key, 0);
        r == if i.Some? then Some(Probe(initialIdx, i.value)) else None
    {
      ghost var t := Slots();
      var idx, i := initialIdx, 0;
      while i < FILE_STATE_LOG
        invariant i <= FILE_STATE_LOG && idx == Probe(initialIdx, i)
        invariant InsertionPoint(t, initialIdx, key, 0) == InsertionPoint(t, initialIdx, key, i)
      {
        assert fileStates[idx] == t[idx];
        if fileStates[idx].status == Free || fileStates[idx].status == Tombstone {
          return Some(idx);
        }
        if fileStates[idx].status == Used && fileStates[idx].key == key {
          return Some(idx);
        }
        i := i + 1;
        idx := Probe(initialIdx, i);
      }
      return None;
    }

    /** find_vfs_file_state. */
    method Find(key: Key) returns (r: Option<nat>)
      requires Valid()
      ensures var i := Search(Slots(), Home(key), key, 0);
        r == if i.Some? then Some(Probe(Home(key), i.value)) else None
    {
      r := ProbeForKey(key, Home(key));
    }

    /** The search that find_vfs_file_state and delete_vfs_file_state share. */
    method ProbeForKey(key: Key, initialIdx: nat) returns (r: Option<nat>)
      requires Valid() && initialIdx < FILE_STATE_COUNT
      ensures var i := Search(Slots(), initialIdx, key, 0);
        r == if i.Some? then Some(Probe(initialIdx, i.value)) else None
    {
      ghost var t := Slots();
      var idx, i := initialIdx, 0;
      while i < FILE_STATE_LOG
        invariant i <= FILE_STATE_LOG && idx == Probe(initialIdx, i)
        invariant Search(t, initialIdx, key, 0) == Search(t, initialIdx, key, i)
      {
        assert fileStates[idx] == t[idx];
        if fileStates[idx].status == Free {
          break;
        }
        if fileStates[idx].status != Tombstone && fileStates[idx].key == key {
          return Some(idx);
        }
        i := i + 1;
        idx := Probe(initialIdx, i);
      }
      return None;
    }

    /** delete_vfs_file_state. */
    method Delete(key: Key) returns (ok: bool)
      requires Valid()
      modifies fileStates
      ensures (ok, Slots()) == Close(old(Slots()), key)
    {
      var idx := ProbeForKey(key, Home(key));
      if idx == None {
        return false;
      }
      ghost var t := Slots();
      fileStates[idx.value] := fileStates[idx.value].(status := Tombstone);
      assert Slots() == t[idx.value := t[idx.value].(status := Tombstone)];
      return true;
    }

    method HandleOpenRoot(from: Word, fd: Word, untyped: nat, typed: nat, root: RomAnswer) returns (reply: Reply)
      requires Valid()
      modifies fileStates
      ensures (reply, Slots()) == OpenRoot(old(Slots()), from, fd, untyped, typed, root)
    {
      if untyped != 1 || typed != 0 {
        return Error(EINVAL);
      }
      var idx := FindInsertionPoint(Key(from, fd));
      if idx == None {
        return Error(ENOMEM);
      }
      if fileStates[idx.value].status == Used {
        return Error(EBADF);
      }
      if root.NoFile? || root.NoInfo? {
        return Error(EIO);
      }
      ghost var t := Slots();
      fileStates[idx.value] := Slot(Used, Key(from, fd), root.file);
      assert Slots() == t[idx.value := Slot(Used, Key(from, fd), root.file)];
      return Ok([fd]);
    }

    method HandleOpenAt(from: Word, fd: Word, newFd: Word, untyped: nat, typed: nat, simple: bool,
        inDir: nat -> RomAnswer) returns (reply: Reply)
      requires Valid()
      modifies fileStates
      ensures (reply, Slots()) == OpenAt(old(Slots()), from, fd, newFd, untyped, typed, simple, inDir)
    {
      if untyped != 2 || typed != 2 {
        return Error(EINVAL);
      }
      if !simple {
        return Error(EINVAL);
      }
      var dir := Find(Key(from, fd));
      if dir == None {
        return Error(EINVAL);
      }
      var answer := inDir(fileStates[dir.value].file.offset);
      if answer.NoFile? {
        return Error(ENOENT);
      }
      var idx := FindInsertionPoint(Key(from, newFd));
      if idx == None {
        return Error(ENOMEM);
      }
      if fileStates[idx.value].status == Used {
        return Error(EBADF);
      }
      if answer.NoInfo? {
        return Error(EIO);
      }
      ghost var t := Slots();
      fileStates[idx.value] := Slot(Used, Key(from, newFd), answer.file);
      assert Slots() == t[idx.value := Slot(Used, Key(from, newFd), answer.file)];
      return Ok([newFd]);
    }

    method HandleClose(from: Word, fd: Word, untyped: nat, typed: nat) returns (reply: Reply)
      requires Valid()
      modifies fileStates
      ensures (reply, Slots()) == CloseFd(old(Slots()), from, fd, untyped, typed)
    {
      if untyped != 1 || typed != 0 {
        return Error(EINVAL);
      }
      var ok := Delete(Key(from, fd));
      if !ok {
        return Error(ENOENT);
      }
      return Ok([]);
    }
  }
}
