/** What the open-file handlers of usr/root/romfs_server.c answer: every reply, told from the slots of the client's
    descriptors and from what romfs says of the file. */
module OpenAnswers {
  import opened OpenFiles
  import opened Words

  /** A slot on the key's probes, before the first that holds the key, is not in use. */
  predicate HasSlot(t: Table, key: Key) {
    exists i :: 0 <= i < FILE_STATE_LOG && t[Probe(Home(key), i)].status != Used &&
      forall j :: 0 <= j < i ==> !Holds(t[Probe(Home(key), j)], key)
  }

  /** Other keys use all five slots of the key. */
  predicate CrowdedOut(t: Table, key: Key) {
    forall i :: 0 <= i < FILE_STATE_LOG ==> t[Probe(Home(key), i)].status == Used && t[Probe(Home(key), i)].key != key
  }

  lemma {:induction false} OpenDecides(t: Table, key: Key, file: File)
    ensures Open(t, key, file).0 == Opened <==> HasSlot(t, key)
    ensures Open(t, key, file).0 == NoRoom <==> CrowdedOut(t, key)
  {
    InsertionPointIs(t, Home(key), key, 0);
    var r := InsertionPoint(t, Home(key), key, 0);
    if r.Some? {
      var i := r.value;
      assert t[Probe(Home(key), i)].status != Used || Holds(t[Probe(Home(key), i)], key);
    }
  }

  /** An open of the root directory: each answer, and the descriptor's new top file. */
  lemma {:induction false} OpenRootAnswers(t: Table, from: Word, fd: Word, u: nat, ty: nat, root: RomAnswer)
    requires NoGap(t)
    ensures var (reply, t') := OpenRoot(t, from, fd, u, ty, root);
      var key := Key(from, fd);
      && (reply == Ok([fd]) <==> u == 1 && ty == 0 && HasSlot(t, key) && root.Found?)
      && (reply == Error(EINVAL) <==> u != 1 || ty != 0)
      && (reply == Error(ENOMEM) <==> u == 1 && ty == 0 && CrowdedOut(t, key))
      && (reply == Error(EBADF) <==> u == 1 && ty == 0 && !CrowdedOut(t, key) && !HasSlot(t, key))
      && (reply == Error(EIO) <==> u == 1 && ty == 0 && HasSlot(t, key) && !root.Found?)
      && (reply.Ok? ==> reply.words == [fd] && Files(t', key) == [root.file] + Files(t, key))
  {
    var key := Key(from, fd);
    var file := if root.Found? then root.file else File(0, 0);
    OpenDecides(t, key, file);
    OpenPushes(t, key, file);
  }

  lemma {:induction false} OpenFoundAnswers(t: Table, key: Key, answer: RomAnswer)
    requires NoGap(t)
    ensures var (reply, t') := OpenFound(t, key, answer);
      && (reply == Ok([key.fd]) <==> answer.Found? && HasSlot(t, key))
      && (reply == Error(ENOENT) <==> answer.NoFile?)
      && (reply == Error(ENOMEM) <==> !answer.NoFile? && CrowdedOut(t, key))
      && (reply == Error(EBADF) <==> !answer.NoFile? && !CrowdedOut(t, key) && !HasSlot(t, key))
      && (reply == Error(EIO) <==> answer.NoInfo? && HasSlot(t, key))
      && reply != Error(EINVAL)
      && (reply.Ok? ==> reply.words == [key.fd] && Files(t', key) == [answer.file] + Files(t, key))
  {
    var file := if answer.Found? then answer.file else File(0, 0);
    OpenDecides(t, key, file);
    OpenPushes(t, key, file);
  }

  /** An open of a name in the directory that is the top file of descriptor fd. */
  lemma {:induction false} OpenAtAnswers(t: Table, from: Word, fd: Word, newFd: Word, u: nat, ty: nat, simple: bool,
      inDir: nat -> RomAnswer)
    requires NoGap(t)
    ensures var (reply, t') := OpenAt(t, from, fd, newFd, u, ty, simple, inDir);
      var key, dir := Key(from, newFd), Files(t, Key(from, fd));
      var good := u == 2 && ty == 2 && simple && dir != [];
      && (reply == Error(EINVAL) <==> !good)
      && (good ==>
          var answer := inDir(dir[0].offset);
          && (reply == Ok([newFd]) <==> answer.Found? && HasSlot(t, key))
          && (reply == Error(ENOENT) <==> answer.NoFile?)
          && (reply == Error(ENOMEM) <==> !answer.NoFile? && CrowdedOut(t, key))
          && (reply == Error(EBADF) <==> !answer.NoFile? && !CrowdedOut(t, key) && !HasSlot(t, key))
          && (reply == Error(EIO) <==> answer.NoInfo? && HasSlot(t, key))
          && (reply.Ok? ==> reply.words == [newFd] && Files(t', key) == [answer.file] + Files(t, key)))
  {
    LookupReadsTop(t, Key(from, fd));
    var dir := Files(t, Key(from, fd));
    if dir != [] {
      OpenFoundAnswers(t, Key(from, newFd), inDir(dir[0].offset));
    }
  }

  /** A close. */
  lemma {:induction false} CloseAnswers(t: Table, from: Word, fd: Word, u: nat, ty: nat)
    requires NoGap(t)
    ensures var (reply, t') := CloseFd(t, from, fd, u, ty);
      var files := Files(t, Key(from, fd));
      && (reply == Ok([]) <==> u == 1 && ty == 0 && files != [])
      && (reply == Error(EINVAL) <==> u != 1 || ty != 0)
      && (reply == Error(ENOENT) <==> u == 1 && ty == 0 && files == [])
      && (reply.Ok? ==> reply.words == [] && Files(t', Key(from, fd)) == files[1..])
  {
    ClosePops(t, Key(from, fd));
  }

  /** A table with one entry, of another key, has a slot for every key. */
  lemma {:induction false} SlotLeft(t: Table, key: Key, other: Key, idx: nat)
    requires key != other && idx < FILE_STATE_COUNT && t == EMPTY_TABLE[idx := t[idx]] && t[idx].key == other
    ensures HasSlot(t, key)
  {
    ProbesDiffer(Home(key), 0, 1);
    var i := if t[Probe(Home(key), 0)].status != Used then 0 else 1;
    assert t[Probe(Home(key), i)].status != Used;
  }

  /** The first open succeeds and leaves a slot for every other descriptor. */
  lemma {:induction false} FirstOpen(key: Key, root: File)
    ensures HasSlot(EMPTY_TABLE, key)
    ensures var t1 := Open(EMPTY_TABLE, key, root).1;
      NoGap(t1) && Files(t1, key) == [root] && forall other: Key :: other != key ==> HasSlot(t1, other)
  {
    assert EMPTY_TABLE[Probe(Home(key), 0)].status != Used;
    EmptyRepresents();
    assert Files(EMPTY_TABLE, key) == [];
    OpenDecides(EMPTY_TABLE, key, root);
    OpenPushes(EMPTY_TABLE, key, root);
    var t1 := Open(EMPTY_TABLE, key, root).1;
    var idx := Probe(Home(key), InsertionPoint(EMPTY_TABLE, Home(key), key, 0).value);
    forall other: Key | other != key
      ensures HasSlot(t1, other)
    {
      SlotLeft(t1, other, key, idx);
    }
  }

  lemma {:induction false} OpenAtServed(t: Table, owner: Word, fd: Word, newFd: Word, root: File,
      inDir: nat -> RomAnswer)
    requires NoGap(t) && Files(t, Key(owner, fd)) == [root] && HasSlot(t, Key(owner, newFd)) &&
      inDir(root.offset).Found?
    ensures var (reply, t') := OpenAt(t, owner, fd, newFd, 2, 2, true, inDir);
      reply == Ok([newFd]) && Files(t', Key(owner, newFd)) == [inDir(root.offset).file] + Files(t, Key(owner, newFd))
  {
    OpenAtAnswers(t, owner, fd, newFd, 2, 2, true, inDir);
  }

  lemma {:induction false} OpenRootServed(owner: Word, fd: Word, root: File)
    ensures OpenRoot(EMPTY_TABLE, owner, fd, 1, 0, Found(root)) == (Ok([fd]), Open(EMPTY_TABLE, Key(owner, fd), root).1)
  {
    FirstOpen(Key(owner, fd), root);
    OpenDecides(EMPTY_TABLE, Key(owner, fd), root);
  }

  /** From the empty table a client opens the root directory and then a file in it. */
  lemma {:induction false} OpensAFile(owner: Word, fd: Word, newFd: Word, root: File, inDir: nat -> RomAnswer)
    requires newFd != fd && inDir(root.offset).Found?
    ensures var (reply0, t1) := Serve(EMPTY_TABLE, OpenRootRequest(owner, fd, 1, 0, Found(root)));
      var (reply1, t2) := Serve(t1, OpenAtRequest(owner, fd, newFd, 2, 2, true, inDir));
      reply0 == Ok([fd]) && reply1 == Ok([newFd]) &&
      Files(t2, Key(owner, newFd)) == [inDir(root.offset).file] + Files(t1, Key(owner, newFd))
  {
    FirstOpen(Key(owner, fd), root);
    OpenRootServed(owner, fd, root);
    OpenAtServed(Open(EMPTY_TABLE, Key(owner, fd), root).1, owner, fd, newFd, root, inDir);
  }
}
