/** The per-process table of open files over the file store. */
module FileDescriptors {
  import opened Bits
  import opened Bytes
  import opened Frames
  import opened FatNames
  import opened FileStores

  const MAX_FDS: nat := 16
  const FIRST_FD: nat := 3
  const NO_SIZE: nat := 0xFFFF_FFFF_FFFF_FFFF

  datatype FileDescriptor = FileDescriptor(filename: Name, data: seq<byte>, offset: nat, writable: bool, dirty: bool)

  /** One process's table and the store that all processes share. */
  datatype Files = Files(fds: seq<Option<FileDescriptor>>, contents: map<Name, seq<byte>>)

  /** A descriptor never points past its data; a writable one always points at its end. */
  ghost predicate DescriptorOk(f: FileDescriptor) {
    && f.offset <= |f.data|
    && (f.writable ==> f.offset == |f.data|)
    && (f.dirty <==> f.writable)
  }

  ghost predicate FilesOk(s: Files) {
    && |s.fds| == MAX_FDS
    && forall fd :: 0 <= fd < MAX_FDS && s.fds[fd].Some? ==> DescriptorOk(s.fds[fd].value)
  }

  predicate IsOpen(s: Files, fd: nat) {
    fd < |s.fds| && s.fds[fd].Some?
  }

  /** The least free descriptor from `i` on, or the size of the table. */
  function FreeFd(fds: seq<Option<FileDescriptor>>, i: nat): (fd: nat)
    requires i <= |fds|
    ensures i <= fd <= |fds|
    ensures fd < |fds| ==> fds[fd].None?
    ensures forall k :: i <= k < fd ==> fds[k].Some?
    decreases |fds| - i
  {
    if i == |fds| || fds[i].None? then i else FreeFd(fds, i + 1)
  }

  function AfterOpen(s: Files, name: Name, writable: bool): (Files, Option<nat>)
    requires |s.fds| == MAX_FDS
  {
    var fd := FreeFd(s.fds, FIRST_FD);
    if fd == MAX_FDS then (s, None)
    else if writable then (s.(fds := s.fds[fd := Some(FileDescriptor(name, [], 0, true, true))]), Some(fd))
    else if Upper(name) !in s.contents then (s, None)
    else
      var file := FileDescriptor(name, s.contents[Upper(name)], 0, false, false);
      (s.(fds := s.fds[fd := Some(file)]), Some(fd))
  }

  function Min(a: nat, b: nat): nat {
    if a <= b then a else b
  }

  /** How many bytes a read of `count` bytes delivers. */
  function Available(f: FileDescriptor, count: nat): nat {
    if f.offset <= |f.data| then Min(count, |f.data| - f.offset) else 0
  }

  function ReadBytes(f: FileDescriptor, count: nat): seq<byte> {
    if f.offset <= |f.data| then f.data[f.offset..f.offset + Available(f, count)] else []
  }

  function AfterRead(s: Files, fd: nat, count: nat): (Files, seq<byte>)
    requires |s.fds| == MAX_FDS
  {
    if !IsOpen(s, fd) then (s, [])
    else
      var f := s.fds[fd].value;
      (s.(fds := s.fds[fd := Some(f.(offset := f.offset + Available(f, count)))]), ReadBytes(f, count))
  }

  /** The data grown with zeros until it has at least `n` bytes. */
  function Resized(data: seq<byte>, n: nat): (r: seq<byte>)
    ensures |r| == if n > |data| then n else |data|
  {
    if n > |data| then data + Zeros(n - |data|) else data
  }

  function Extended(f: FileDescriptor, bytes: seq<byte>): FileDescriptor {
    var data := Resized(f.data, f.offset + |bytes|);
    f.(data := data[..f.offset] + bytes + data[f.offset + |bytes|..], offset := f.offset + |bytes|, dirty := true)
  }

  function AfterWrite(s: Files, fd: nat, buf: seq<byte>, count: nat): (Files, nat)
    requires |s.fds| == MAX_FDS
  {
    if !IsOpen(s, fd) || !s.fds[fd].value.writable then (s, 0)
    else
      var n := Min(count, |buf|);
      (s.(fds := s.fds[fd := Some(Extended(s.fds[fd].value, buf[..n]))]), n)
  }

  function AfterClose(s: Files, fd: nat): (Files, bool)
    requires |s.fds| == MAX_FDS
  {
    if !IsOpen(s, fd) then (s, false)
    else
      var f := s.fds[fd].value;
      (Files(s.fds[fd := None],
             if f.writable && f.dirty then s.contents[Upper(f.filename) := f.data] else s.contents), true)
  }

  /** Opening fails exactly when the descriptors from 3 on are all in use, or the file to be read
      does not exist; otherwise the lowest free one has the file, or nothing yet, at offset 0. */
  lemma OpenAnswers(s: Files, name: Name, writable: bool)
    requires |s.fds| == MAX_FDS
    ensures var (n, fd) := AfterOpen(s, name, writable);
      && (fd.None? <==> (forall k :: 3 <= k < 16 ==> s.fds[k].Some?) || (!writable && Upper(name) !in s.contents))
      && (fd.None? ==> n == s)
      && (fd.Some? ==>
            && 3 <= fd.value < 16 && s.fds[fd.value].None? && (forall k :: 3 <= k < fd.value ==> s.fds[k].Some?)
            && n.contents == s.contents && n.fds == s.fds[fd.value := n.fds[fd.value]] && n.fds[fd.value].Some?
            && var f := n.fds[fd.value].value;
              && f.filename == name && f.offset == 0 && f.writable == writable && f.dirty == writable
              && f.data == if writable then [] else s.contents[Upper(name)])
  {
    hide Upper;
  }

  /** A read delivers as many bytes as asked for, or all that are left. */
  lemma ReadAnswers(s: Files, fd: nat, count: nat)
    requires FilesOk(s)
    ensures var (n, bytes) := AfterRead(s, fd, count);
      && n.contents == s.contents && |bytes| <= count
      && if !IsOpen(s, fd) then bytes == [] && n == s
         else
           var f := s.fds[fd].value;
           && f.offset + |bytes| <= |f.data| && (|bytes| == count || f.offset + |bytes| == |f.data|)
           && bytes == f.data[f.offset..f.offset + |bytes|]
           && n.fds == s.fds[fd := Some(f.(offset := f.offset + |bytes|))]
  {
  }

  /** A write takes as many bytes as asked for, or the whole buffer, and appends them. */
  lemma WriteAnswers(s: Files, fd: nat, buf: seq<byte>, count: nat)
    requires FilesOk(s)
    ensures var (n, taken) := AfterWrite(s, fd, buf, count);
      && n.contents == s.contents && taken <= count && taken <= |buf|
      && if !IsOpen(s, fd) || !s.fds[fd].value.writable then taken == 0 && n == s
         else
           var f := s.fds[fd].value;
           && (taken == count || taken == |buf|)
           && n.fds == s.fds[fd := Some(f.(data := f.data + buf[..taken], offset := |f.data| + taken))]
  {
    hide Extended;
    if IsOpen(s, fd) && s.fds[fd].value.writable {
      AppendAtEnd(s.fds[fd].value, buf[..Min(count, |buf|)]);
    }
  }

  /** Closing frees the descriptor; only what was opened for writing reaches the store, under
      its upper-case name, in place of what was there. */
  lemma CloseAnswers(s: Files, fd: nat)
    requires FilesOk(s)
    ensures var (n, ok) := AfterClose(s, fd);
      if !IsOpen(s, fd) then !ok && n == s
      else
        var f := s.fds[fd].value;
        && ok && n.fds == s.fds[fd := None]
        && forall key :: Upper(key) == key ==>
          (key in n.contents <==> (f.writable && SameName(key, f.filename)) || key in s.contents)
          && (key in n.contents ==> n.contents[key] == if f.writable && SameName(key, f.filename) then f.data else s.contents[key])
  {
    hide Upper, SameName;
    if IsOpen(s, fd) {
      forall key: Name
        ensures SameName(key, s.fds[fd].value.filename) <==> Upper(key) == Upper(s.fds[fd].value.filename)
      {
        SameNameIff(key, s.fds[fd].value.filename);
      }
    }
  }

  /** What a process does with its table, and what others do to the shared store. */
  datatype Op =
    | Open(name: Name, writable: bool)
    | Read(fd: nat, count: nat)
    | Write(fd: nat, buf: seq<byte>, count: nat)
    | Close(fd: nat)
    | Put(name: Name, data: seq<byte>)
    | Unlink(name: Name)

  function Step(s: Files, op: Op): (after: Files)
    requires |s.fds| == MAX_FDS
    ensures |after.fds| == MAX_FDS
  {
    match op
    case Open(name, writable) => AfterOpen(s, name, writable).0
    case Read(fd, count) => AfterRead(s, fd, count).0
    case Write(fd, buf, count) => AfterWrite(s, fd, buf, count).0
    case Close(fd) => AfterClose(s, fd).0
    case Put(name, data) => s.(contents := s.contents[Upper(name) := data])
    case Unlink(name) => s.(contents := s.contents - {Upper(name)})
  }

  function Run(s: Files, ops: seq<Op>): (after: Files)
    requires |s.fds| == MAX_FDS
    ensures |after.fds| == MAX_FDS
    decreases |ops|
  {
    if ops == [] then s else Run(Step(s, ops[0]), ops[1..])
  }

  lemma StepKeepsOffsets(s: Files, op: Op)
    requires FilesOk(s)
    ensures FilesOk(Step(s, op))
  {
  }

  /** No descriptor ever points past its data, whatever is done to the table. */
  lemma {:induction false} OffsetsStayInside(s: Files, ops: seq<Op>)
    requires FilesOk(s)
    ensures FilesOk(Run(s, ops))
    decreases |ops|
  {
    if ops != [] {
      StepKeepsOffsets(s, ops[0]);
      hide Step, FilesOk;
      OffsetsStayInside(Step(s, ops[0]), ops[1..]);
    }
  }

  function WrittenBy(op: Op, fd: nat): seq<byte> {
    if op.Write? && op.fd == fd then op.buf[..Min(op.count, |op.buf|)] else []
  }

  /** What the operations write through descriptor `fd`, in order. */
  function WrittenTo(ops: seq<Op>, fd: nat): seq<byte> {
    if ops == [] then [] else WrittenBy(ops[0], fd) + WrittenTo(ops[1..], fd)
  }

  function ReadBy(s: Files, op: Op, fd: nat): seq<byte>
    requires |s.fds| == MAX_FDS
  {
    if op.Read? && op.fd == fd then AfterRead(s, fd, op.count).1 else []
  }

  /** What the reads from descriptor `fd` deliver, in order. */
  function ReadFrom(s: Files, ops: seq<Op>, fd: nat): seq<byte>
    requires |s.fds| == MAX_FDS
    decreases |ops|
  {
    if ops == [] then []
    else ReadBy(s, ops[0], fd) + ReadFrom(Step(s, ops[0]), ops[1..], fd)
  }

  predicate NeverClosed(ops: seq<Op>, fd: nat) {
    Close(fd) !in ops
  }

  /** One step appends to a writable descriptor what it writes through it. */
  lemma StepOnWriter(s: Files, op: Op, fd: nat)
    requires FilesOk(s) && IsOpen(s, fd) && s.fds[fd].value.writable && op != Close(fd)
    ensures FilesOk(Step(s, op)) && IsOpen(Step(s, op), fd)
    ensures var f := s.fds[fd].value; var data := f.data + WrittenBy(op, fd);
            Step(s, op).fds[fd].value == f.(data := data, offset := |data|)
  {
    hide Extended;
    StepKeepsOffsets(s, op);
    var f := s.fds[fd].value;
    AppendAtEnd(f, WrittenBy(op, fd));
    assert f.data + [] == f.data;
  }

  /** One step moves a read-only descriptor past what it delivers, and changes nothing else of it. */
  lemma StepOnReader(s: Files, op: Op, fd: nat)
    requires FilesOk(s) && IsOpen(s, fd) && !s.fds[fd].value.writable && op != Close(fd)
    ensures FilesOk(Step(s, op)) && IsOpen(Step(s, op), fd)
    ensures var f := s.fds[fd].value; var after := Step(s, op).fds[fd].value;
            && f.offset <= after.offset <= |f.data|
            && after == f.(offset := after.offset)
            && ReadBy(s, op, fd) == f.data[f.offset..after.offset]
  {
    hide Extended, Upper;
    StepKeepsOffsets(s, op);
  }

  lemma AppendAtEnd(f: FileDescriptor, bytes: seq<byte>)
    requires f.offset == |f.data| && f.dirty
    ensures Extended(f, bytes) == f.(data := f.data + bytes, offset := |f.data| + |bytes|)
  {
    var data := Resized(f.data, f.offset + |bytes|);
    assert data[..f.offset] == f.data && data[f.offset + |bytes|..] == [];
  }

  /** A descriptor open for writing holds its data followed by all that was written through it,
      whatever else happens meanwhile. */
  lemma {:induction false} WritesAccumulate(s: Files, ops: seq<Op>, fd: nat)
    requires |s.fds| == MAX_FDS && FilesOk(s) && IsOpen(s, fd) && s.fds[fd].value.writable && NeverClosed(ops, fd)
    ensures IsOpen(Run(s, ops), fd)
    ensures var f := s.fds[fd].value; var data := f.data + WrittenTo(ops, fd);
            Run(s, ops).fds[fd].value == f.(data := data, offset := |data|)
    decreases |ops|
  {
    hide Step, FilesOk, WrittenBy, DescriptorOk;
    WriterAtEnd(s, fd);
    var f := s.fds[fd].value;
    if ops == [] {
      assert f.data + [] == f.data;
    } else {
      FirstOp(ops, fd);
      StepOnWriter(s, ops[0], fd);
      WritesAccumulate(Step(s, ops[0]), ops[1..], fd);
      assert f.data + WrittenBy(ops[0], fd) + WrittenTo(ops[1..], fd) == f.data + WrittenTo(ops, fd);
    }
  }

  lemma WriterAtEnd(s: Files, fd: nat)
    requires FilesOk(s) && IsOpen(s, fd)
    ensures |s.fds| == MAX_FDS && s.fds[fd].value.offset <= |s.fds[fd].value.data|
    ensures s.fds[fd].value.writable ==> s.fds[fd].value.offset == |s.fds[fd].value.data|
  {
  }

  lemma FirstOp(ops: seq<Op>, fd: nat)
    requires NeverClosed(ops, fd) && ops != []
    ensures ops[0] != Close(fd) && NeverClosed(ops[1..], fd)
  {
    assert ops[0] in ops && forall op :: op in ops[1..] ==> op in ops;
  }

  /** A descriptor open for reading delivers its snapshot from its offset on, whatever happens
      meanwhile to the store and to the other descriptors. */
  lemma {:induction false} ReadsDeliver(s: Files, ops: seq<Op>, fd: nat)
    requires |s.fds| == MAX_FDS && FilesOk(s) && IsOpen(s, fd) && !s.fds[fd].value.writable && NeverClosed(ops, fd)
    ensures IsOpen(Run(s, ops), fd)
    ensures var f := s.fds[fd].value; var after := Run(s, ops).fds[fd].value;
            && f.offset <= after.offset <= |f.data|
            && after == f.(offset := after.offset)
            && ReadFrom(s, ops, fd) == f.data[f.offset..after.offset]
    decreases |ops|
  {
    hide Step, FilesOk, ReadBy, DescriptorOk;
    WriterAtEnd(s, fd);
    if ops != [] {
      FirstOp(ops, fd);
      StepOnReader(s, ops[0], fd);
      ReadsDeliver(Step(s, ops[0]), ops[1..], fd);
      var f := s.fds[fd].value;
      var next, last := Step(s, ops[0]).fds[fd].value, Run(s, ops).fds[fd].value;
      assert f.data[f.offset..last.offset] == f.data[f.offset..next.offset] + f.data[next.offset..last.offset];
    }
  }

  /** No step of the run stores or removes the file `key`. */
  ghost predicate Spares(s: Files, ops: seq<Op>, key: Name)
    requires |s.fds| == MAX_FDS
    decreases |ops|
  {
    ops != [] ==>
      && !(ops[0].Put? && Upper(ops[0].name) == key)
      && !(ops[0].Unlink? && Upper(ops[0].name) == key)
      && !(ops[0].Close? && IsOpen(s, ops[0].fd) && s.fds[ops[0].fd].value.writable
           && Upper(s.fds[ops[0].fd].value.filename) == key)
      && Spares(Step(s, ops[0]), ops[1..], key)
  }

  lemma {:induction false} SparedFileStays(s: Files, ops: seq<Op>, key: Name)
    requires |s.fds| == MAX_FDS && Spares(s, ops, key) && key in s.contents
    ensures key in Run(s, ops).contents && Run(s, ops).contents[key] == s.contents[key]
    decreases |ops|
  {
    hide Upper;
    if ops != [] {
      SparedFileStays(Step(s, ops[0]), ops[1..], key);
    }
  }

  /** Open for writing, write, close, open for reading and read to the end: the reads deliver
      exactly what was written, with anything else in between that leaves the file alone. */
  lemma WriteThenRead(s: Files, name: Name, writes: seq<Op>, between: seq<Op>, readOps: seq<Op>, fd: nat, fd2: nat)
    requires FilesOk(s)
    requires AfterOpen(s, name, true).1 == Some(fd) && NeverClosed(writes, fd)
    requires var written := Run(Step(s, Open(name, true)), writes);
             Spares(Step(written, Close(fd)), between, Upper(name))
    requires var later := Run(Step(Run(Step(s, Open(name, true)), writes), Close(fd)), between);
             AfterOpen(later, name, false).1 == Some(fd2)
    requires NeverClosed(readOps, fd2)
    ensures var written := Run(Step(s, Open(name, true)), writes);
            var later := Run(Step(written, Close(fd)), between);
            var reopened := Step(later, Open(name, false));
            && IsOpen(Run(reopened, readOps), fd2)
            && ReadFrom(reopened, readOps, fd2) <= WrittenTo(writes, fd)
            && (AfterRead(Run(reopened, readOps), fd2, 1).1 == [] <==> ReadFrom(reopened, readOps, fd2) == WrittenTo(writes, fd))
  {
    var start := Step(s, Open(name, true));
    var written := Run(start, writes);
    var closed := Step(written, Close(fd));
    var later := Run(closed, between);
    var reopened := Step(later, Open(name, false));
    StepKeepsOffsets(s, Open(name, true));
    OffsetsStayInside(start, writes);
    StepKeepsOffsets(written, Close(fd));
    OffsetsStayInside(closed, between);
    StepKeepsOffsets(later, Open(name, false));
    WritesAccumulate(start, writes, fd);
    assert closed.contents[Upper(name)] == WrittenTo(writes, fd);
    SparedFileStays(closed, between, Upper(name));
    hide Run, WrittenTo, ReadFrom, Spares, Upper, FilesOk;
    assert reopened.fds[fd2] == Some(FileDescriptor(name, WrittenTo(writes, fd), 0, false, false));
    ReadsDeliver(reopened, readOps, fd2);
  }

  class FdTable {
    const fds: array<Option<FileDescriptor>>
    const store: FileStore

    ghost predicate Valid()
      reads this, fds, store
    {
      fds.Length == MAX_FDS && store.Valid() && FilesOk(AsFiles())
    }

    ghost function AsFiles(): Files
      reads this, fds, store
      requires store.Valid()
    {
      Files(fds[..], store.Contents())
    }

    constructor (store: FileStore)
      requires store.Valid()
      ensures Valid() && fresh(fds) && this.store == store
      ensures forall fd :: 0 <= fd < MAX_FDS ==> fds[fd] == None
    {
      this.store := store;
      fds := new Option<FileDescriptor>[MAX_FDS](_ => None);
    }

    method AllocFd() returns (fd: Option<nat>)
      requires Valid()
      ensures var i := FreeFd(fds[..], FIRST_FD); fd == if i < MAX_FDS then Some(i) else None
    {
      var i := FIRST_FD;
      while i < MAX_FDS
        invariant FIRST_FD <= i <= MAX_FDS
        invariant FreeFd(fds[..], FIRST_FD) == FreeFd(fds[..], i)
      {
        if fds[i].None? {
          return Some(i);
        }
        i := i + 1;
      }
      return None;
    }

    /** Bit 0 of the flags asks for a fresh writable file. */
    method Open(filename: Name, flags: nat) returns (result: Option<nat>)
      requires Valid()
      modifies fds
      ensures Valid()
      ensures (AsFiles(), result) == AfterOpen(old(AsFiles()), filename, And(flags, 1) != 0)
    {
      hide FileStore.Contents, FileStore.Valid, And, FreeFd;
      result := AllocFd();
      if result.None? {
        return;
      }
      var fd := result.value;
      var writable := And(flags, 1) != 0;
      var data := [];
      if !writable {
        var existing := store.ReadFile(filename);
        if existing.None? {
          return None;
        }
        data := existing.value;
      }
      ghost var was := fds[..];
      fds[fd] := Some(FileDescriptor(filename, data, 0, writable, writable));
      assert fds[..] == was[fd := Some(FileDescriptor(filename, data, 0, writable, writable))];
    }

    method Read(fd: nat, buf: array<byte>, count: nat) returns (n: nat)
      requires Valid()
      requires IsOpen(AsFiles(), fd) ==> Available(fds[fd].value, count) <= buf.Length
      modifies fds, buf
      ensures Valid() && n == |AfterRead(old(AsFiles()), fd, count).1|
      ensures AsFiles() == AfterRead(old(AsFiles()), fd, count).0
      ensures Stored(old(buf[..]), 0, AfterRead(old(AsFiles()), fd, count).1, buf[..])
    {
      hide FileStore.Contents, FileStore.Valid;
      if fd >= MAX_FDS || fds[fd].None? {
        return 0;
      }
      var file := fds[fd].value;
      var remaining := |file.data| - file.offset;
      n := Min(count, remaining);
      ghost var was := fds[..];
      if n > 0 {
        forall k | 0 <= k < n {
          buf[k] := file.data[file.offset + k];
        }
        fds[fd] := Some(file.(offset := file.offset + n));
      }
      assert fds[..] == was[fd := Some(file.(offset := file.offset + n))];
    }

    method Write(fd: nat, buf: seq<byte>, count: nat) returns (n: nat)
      requires Valid()
      modifies fds
      ensures Valid() && (AsFiles(), n) == AfterWrite(old(AsFiles()), fd, buf, count)
    {
      hide FileStore.Contents, FileStore.Valid;
      if fd >= MAX_FDS || fds[fd].None? || !fds[fd].value.writable {
        return 0;
      }
      var file := fds[fd].value;
      n := Min(count, |buf|);
      var data := Resized(file.data, file.offset + n);
      data := data[..file.offset] + buf[..n] + data[file.offset + n..];
      ghost var was := fds[..];
      fds[fd] := Some(file.(data := data, offset := file.offset + n, dirty := true));
      assert fds[..] == was[fd := Some(Extended(file, buf[..n]))];
    }

    /** Frees the descriptor and flushes a written file to the store. */
    method Close(fd: nat) returns (ok: bool)
      requires Valid()
      modifies fds, store
      ensures Valid() && (AsFiles(), ok) == AfterClose(old(AsFiles()), fd)
    {
      hide FileStore.Contents, FileStore.Valid;
      if fd >= MAX_FDS || fds[fd].None? {
        return false;
      }
      var file := fds[fd].value;
      ghost var was := fds[..];
      fds[fd] := None;
      assert fds[..] == was[fd := None];
      if file.writable && file.dirty {
        store.WriteFile(file.filename, file.data);
      }
      return true;
    }

    method Stat(fd: nat) returns (size: nat)
      requires Valid()
      ensures size == if IsOpen(AsFiles(), fd) then |fds[fd].value.data| else NO_SIZE
    {
      if fd >= MAX_FDS || fds[fd].None? {
        return NO_SIZE;
      }
      return |fds[fd].value.data|;
    }
  }
}
