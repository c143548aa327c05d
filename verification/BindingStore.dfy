/** The workspace-to-sandbox binding file of internal/core/herdrspace/store.go, one call at a time.
    StoreProtocol interleaves the calls of many processes. */
module BindingStore {

  import opened Wrappers

  datatype Binding = Binding(spaceLabel: string, workspaceId: string, handle: string, checkoutPath: string)

  /** The two updates of the store. */
  datatype Op = Put(binding: Binding) | Delete(spaceLabel: string)

  /** Whether an update removes an entry that is already stored. */
  predicate Drops(op: Op, existing: Binding) {
    match op
    case Put(b) => existing.spaceLabel == b.spaceLabel || existing.handle == b.handle
    case Delete(spaceLabel) => existing.spaceLabel == spaceLabel
  }

  function Kept(bs: seq<Binding>, op: Op): seq<Binding> {
    if bs == [] then []
    else if Drops(op, bs[0]) then Kept(bs[1..], op)
    else [bs[0]] + Kept(bs[1..], op)
  }

  /** The stored list once op is done. */
  function Commit(bs: seq<Binding>, op: Op): seq<Binding> {
    if op.Put? then Kept(bs, op) + [op.binding] else Kept(bs, op)
  }

  /** No two entries share a label and no two share a handle. */
  ghost predicate Unique(bs: seq<Binding>) {
    forall i, j | 0 <= i < j < |bs| :: bs[i].spaceLabel != bs[j].spaceLabel && bs[i].handle != bs[j].handle
  }

  // ---- What an update does ---------------------------------------------------------

  /** An update keeps exactly the entries it does not drop. */
  lemma {:induction false} KeptHas(bs: seq<Binding>, op: Op, x: Binding)
    ensures x in Kept(bs, op) <==> x in bs && !Drops(op, x)
  {
    if bs != [] {
      KeptHas(bs[1..], op, x);
    }
  }

  lemma {:induction false} UniqueCons(b: Binding, bs: seq<Binding>)
    requires Unique(bs) && forall x | x in bs :: x.spaceLabel != b.spaceLabel && x.handle != b.handle
    ensures Unique([b] + bs) && Unique(bs + [b])
  {
  }

  lemma {:induction false} UniqueHead(bs: seq<Binding>)
    requires Unique(bs) && bs != []
    ensures Unique(bs[1..]) && forall x | x in bs[1..] :: x.spaceLabel != bs[0].spaceLabel && x.handle != bs[0].handle
  {
  }

  lemma {:induction false} KeptUnique(bs: seq<Binding>, op: Op)
    requires Unique(bs)
    ensures Unique(Kept(bs, op))
  {
    if bs != [] {
      UniqueHead(bs);
      KeptUnique(bs[1..], op);
      forall x ensures x in Kept(bs[1..], op) ==> x in bs[1..] {
        KeptHas(bs[1..], op, x);
      }
      hide Unique;
      if !Drops(op, bs[0]) {
        UniqueCons(bs[0], Kept(bs[1..], op));
      }
    }
  }

  /** Labels and handles stay pairwise distinct. */
  lemma {:induction false} CommitUnique(bs: seq<Binding>, op: Op)
    requires Unique(bs)
    ensures Unique(Commit(bs, op))
  {
    KeptUnique(bs, op);
    forall x ensures x in Kept(bs, op) ==> !Drops(op, x) {
      KeptHas(bs, op, x);
    }
    hide Unique, Kept;
    if op.Put? {
      UniqueCons(op.binding, Kept(bs, op));
    }
  }

  lemma {:induction false} KeptAll(bs: seq<Binding>, op: Op)
    ensures |Kept(bs, op)| <= |bs|
    ensures Kept(bs, op) == bs <==> forall x | x in bs :: !Drops(op, x)
  {
    if bs != [] {
      KeptAll(bs[1..], op);
      assert bs == [bs[0]] + bs[1..];
      if !Drops(op, bs[0]) {
        assert forall x :: x in bs <==> x == bs[0] || x in bs[1..];
        assert Kept(bs, op)[1..] == Kept(bs[1..], op);
      } else {
        assert bs[0] in bs;
      }
    }
  }

  lemma {:induction false} KeptAppend(bs: seq<Binding>, b: Binding, op: Op)
    ensures Kept(bs + [b], op) == Kept(bs, op) + (if Drops(op, b) then [] else [b])
  {
    if bs == [] {
      assert [] + [b] == [b];
      assert [b][1..] == [];
    } else {
      assert (bs + [b])[0] == bs[0] && (bs + [b])[1..] == bs[1..] + [b];
      KeptAppend(bs[1..], b, op);
    }
  }

  /** The updates entry by entry: a Put goes through the list in order, leaves out what has its label or its handle, and
      ends with the new binding; a Delete leaves out its label. */
  lemma {:induction false} CommitByEntries(bs: seq<Binding>, x: Binding, b: Binding, spaceLabel: string)
    ensures Commit([], Put(b)) == [b] && Commit([], Delete(spaceLabel)) == []
    ensures Commit(bs + [x], Delete(spaceLabel))
         == Commit(bs, Delete(spaceLabel)) + (if x.spaceLabel == spaceLabel then [] else [x])
    ensures var kept := Commit(bs, Put(b))[..|Commit(bs, Put(b))| - 1];
      && Commit(bs, Put(b)) == kept + [b]
      && Commit(bs + [x], Put(b))
         == kept + (if x.spaceLabel == b.spaceLabel || x.handle == b.handle then [] else [x]) + [b]
  {
    KeptAppend(bs, x, Put(b));
    KeptAppend(bs, x, Delete(spaceLabel));
    assert Kept([], Put(b)) == [] && [] + [b] == [b];
    assert Commit(bs, Put(b))[..|Commit(bs, Put(b))| - 1] == Kept(bs, Put(b));
  }

  /** Storing a binding and deleting its label restores the store exactly when the binding collided with nothing. */
  lemma {:induction false} DeleteUndoesPut(bs: seq<Binding>, b: Binding)
    ensures Commit(Commit(bs, Put(b)), Delete(b.spaceLabel)) == bs
       <==> forall x | x in bs :: x.spaceLabel != b.spaceLabel && x.handle != b.handle
  {
    var kept := Kept(bs, Put(b));
    KeptAppend(kept, b, Delete(b.spaceLabel));
    forall x | x in kept
      ensures !Drops(Delete(b.spaceLabel), x)
    {
      KeptHas(bs, Put(b), x);
    }
    KeptAll(kept, Delete(b.spaceLabel));
    KeptAll(bs, Put(b));
    hide Kept;
    assert kept + [] == kept;
  }

  lemma {:induction false} PutAgain(bs: seq<Binding>, b: Binding)
    ensures Commit(Commit(bs, Put(b)), Put(b)) == Commit(bs, Put(b))
  {
    var kept := Kept(bs, Put(b));
    KeptAppend(kept, b, Put(b));
    forall x | x in kept
      ensures !Drops(Put(b), x)
    {
      KeptHas(bs, Put(b), x);
    }
    KeptAll(kept, Put(b));
    hide Kept;
    assert kept + [] == kept;
  }

  // ---- Lookups ---------------------------------------------------------------------

  datatype Query = ByLabel(spaceLabel: string) | ByWorkspace(id: string) | ByHandle(handle: string)

  predicate Matches(q: Query, b: Binding) {
    match q
    case ByLabel(spaceLabel) => b.spaceLabel == spaceLabel
    case ByWorkspace(id) => b.workspaceId == id
    case ByHandle(handle) => b.handle == handle
  }

  /** The first entry that matches. */
  ghost predicate IsFirst(bs: seq<Binding>, q: Query, found: Option<Binding>) {
    match found
    case None => forall x | x in bs :: !Matches(q, x)
    case Some(b) => exists i: nat :: i < |bs| && bs[i] == b && Matches(q, b)
                                  && forall j | 0 <= j < i :: !Matches(q, bs[j])
  }

  /** With unique keys the order of the file does not matter to a lookup by label or handle. */
  lemma {:induction false} FirstOfUnique(bs: seq<Binding>, q: Query, found: Option<Binding>)
    requires Unique(bs) && !q.ByWorkspace? && IsFirst(bs, q, found)
    ensures forall x | x in bs && Matches(q, x) :: found == Some(x)
    ensures found.Some? ==> found.value in bs && Matches(q, found.value)
  {
    if found.Some? {
      var i: nat :| i < |bs| && bs[i] == found.value;
    }
  }

  /** What a lookup by label sees after a Put: the new binding under its own label; under any other label the old
      answer, unless that entry held the new binding's handle and was evicted. */
  lemma {:induction false} LookupAfterPut(bs: seq<Binding>, b: Binding, spaceLabel: string,
                                          before: Option<Binding>, after: Option<Binding>)
    requires Unique(bs)
    requires IsFirst(bs, ByLabel(spaceLabel), before) && IsFirst(Commit(bs, Put(b)), ByLabel(spaceLabel), after)
    ensures after == if spaceLabel == b.spaceLabel then Some(b)
                     else if before.Some? && before.value.handle == b.handle then None
                     else before
  {
    CommitUnique(bs, Put(b));
    FirstOfUnique(bs, ByLabel(spaceLabel), before);
    FirstOfUnique(Commit(bs, Put(b)), ByLabel(spaceLabel), after);
    forall x
      ensures x in Commit(bs, Put(b)) <==> x == b || (x in bs && !Drops(Put(b), x))
    {
      KeptHas(bs, Put(b), x);
    }
    hide Commit, Unique;
    if after.Some? {
      assert after.value in Commit(bs, Put(b));
    }
  }

  lemma {:induction false} LookupAfterDelete(bs: seq<Binding>, gone: string, spaceLabel: string,
                                             before: Option<Binding>, after: Option<Binding>)
    requires Unique(bs)
    requires IsFirst(bs, ByLabel(spaceLabel), before) && IsFirst(Commit(bs, Delete(gone)), ByLabel(spaceLabel), after)
    ensures after == if spaceLabel == gone then None else before
  {
    CommitUnique(bs, Delete(gone));
    FirstOfUnique(bs, ByLabel(spaceLabel), before);
    FirstOfUnique(Commit(bs, Delete(gone)), ByLabel(spaceLabel), after);
    forall x
      ensures x in Commit(bs, Delete(gone)) <==> x in bs && !Drops(Delete(gone), x)
    {
      KeptHas(bs, Delete(gone), x);
    }
    hide Commit, Unique;
    if after.Some? {
      assert after.value in Commit(bs, Delete(gone));
    }
  }

  // ---- The store -------------------------------------------------------------------

  datatype File = Absent | Corrupt | Stored(bindings: seq<Binding>)

  datatype Error = IOError | NotFound

  /** How the system calls of one operation go. */
  datatype Disk = Disk(mkdir: bool, live: bool, lock: bool, read: bool, write: bool)

  /** Every system call of an update goes well. */
  predicate Works(disk: Disk) {
    disk.mkdir && disk.live && disk.lock && disk.read && disk.write
  }

  class Store {
    var file: File

    constructor ()
      ensures file == Absent
    {
      file := Absent;
    }

    /** The bindings a reader sees: none when there is no file yet. */
    ghost function Contents(): seq<Binding>
      reads this
    {
      if file.Stored? then file.bindings else []
    }

    /** readAll. */
    method ReadAll(disk: Disk) returns (r: Result<seq<Binding>, Error>)
      ensures r == if disk.read && !file.Corrupt? then Ok(Contents()) else Err(IOError)
    {
      if !disk.read {
        return Err(IOError);
      }
      match file
      case Absent => r := Ok([]);
      case Corrupt => r := Err(IOError);
      case Stored(bs) => r := Ok(bs);
    }

    /** Put(ctx, dir, b). */
    method Put(b: Binding, disk: Disk) returns (ok: bool)
      modifies this
      ensures ok <==> disk.mkdir && disk.live && disk.lock && disk.read && disk.write && !old(file).Corrupt?
      ensures file == if ok then Stored(Commit(old(Contents()), Op.Put(b))) else old(file)
    {
      if !(disk.mkdir && disk.live && disk.lock) {
        return false;
      }
      var all := ReadAll(disk);
      if all.Err? {
        return false;
      }
      var bs := all.value;
      var out: seq<Binding> := [];
      for i := 0 to |bs|
        invariant file == old(file)
        invariant out == Kept(bs[..i], Op.Put(b))
      {
        assert bs[..i + 1] == bs[..i] + [bs[i]];
        KeptAppend(bs[..i], bs[i], Op.Put(b));
        if bs[i].spaceLabel != b.spaceLabel && bs[i].handle != b.handle {
          out := out + [bs[i]];
        }
      }
      assert bs[..|bs|] == bs;
      out := out + [b];
      if !disk.write {
        return false;
      }
      file := Stored(out);
      ok := true;
    }

    /** Delete(ctx, dir, label). */
    method Delete(spaceLabel: string, disk: Disk) returns (ok: bool)
      modifies this
      ensures ok <==> disk.mkdir && disk.live && disk.lock && disk.read && disk.write && !old(file).Corrupt?
      ensures file == if ok then Stored(Commit(old(Contents()), Op.Delete(spaceLabel))) else old(file)
    {
      if !(disk.mkdir && disk.live && disk.lock) {
        return false;
      }
      var all := ReadAll(disk);
      if all.Err? {
        return false;
      }
      var bs := all.value;
      var out: seq<Binding> := [];
      for i := 0 to |bs|
        invariant file == old(file)
        invariant out == Kept(bs[..i], Op.Delete(spaceLabel))
      {
        assert bs[..i + 1] == bs[..i] + [bs[i]];
        KeptAppend(bs[..i], bs[i], Op.Delete(spaceLabel));
        if bs[i].spaceLabel != spaceLabel {
          out := out + [bs[i]];
        }
      }
      assert bs[..|bs|] == bs;
      if !disk.write {
        return false;
      }
      file := Stored(out);
      ok := true;
    }

    /** GetByLabel, GetByWorkspaceID and GetByHandle, which differ only in the field compared. */
    method Get(q: Query, disk: Disk) returns (r: Result<Binding, Error>)
      ensures r == Err(IOError) <==> !disk.live || !disk.read || file.Corrupt?
      ensures r != Err(IOError) ==> IsFirst(Contents(), q, if r.Ok? then Some(r.value) else None)
      ensures r.Ok? && q.ByLabel? ==> r.value.spaceLabel == q.spaceLabel
      ensures r.Ok? && q.ByWorkspace? ==> r.value.workspaceId == q.id
      ensures r.Ok? && q.ByHandle? ==> r.value.handle == q.handle
      ensures r != Err(IOError) ==>
        exists i: nat :: i <= |Contents()| && (if r.Ok? then i < |Contents()| && Contents()[i] == r.value else i == |Contents()|)
          && forall j | 0 <= j < i ::
               var x := Contents()[j];
               && (q.ByLabel? ==> x.spaceLabel != q.spaceLabel) && (q.ByWorkspace? ==> x.workspaceId != q.id)
               && (q.ByHandle? ==> x.handle != q.handle)
    {
      if !disk.live {
        return Err(IOError);
      }
      var all := ReadAll(disk);
      if all.Err? {
        return Err(IOError);
      }
      var bs := all.value;
      for i := 0 to |bs|
        invariant forall j | 0 <= j < i :: !Matches(q, bs[j])
      {
        if Matches(q, bs[i]) {
          return Ok(bs[i]);
        }
      }
      r := Err(NotFound);
    }

    /** List(ctx, dir). */
    method List(disk: Disk) returns (r: Result<seq<Binding>, Error>)
      ensures r == if disk.live && disk.read && !file.Corrupt? then Ok(Contents()) else Err(IOError)
    {
      if !disk.live {
        return Err(IOError);
      }
      r := ReadAll(disk);
    }
  }
}
