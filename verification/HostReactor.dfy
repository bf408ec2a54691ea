/**
 The stream to one host. Two buffers take turns, so that the one being written is left alone.
 Each method is a stretch of a callback that runs without interference: a section that holds the
 mutex, or a single access outside of it.
 */
module HostReactors {
  import opened Wrappers

  /** An allocation bundle with its auxiliary data. */
  type Alloc = seq<int>

  /** What the fields of a HostReactor hold. */
  datatype Fields = Fields(
    staged: Alloc, wip: Alloc, wipWrite: bool, hasStaged: bool, finished: bool, hasListener: bool)

  const NEW_FIELDS := Fields([], [], false, false, false, false)

  /** The buffers change places and the staged one is written. */
  function Sent(f: Fields): Fields {
    f.(staged := f.wip, wip := f.staged, wipWrite := true)
  }

  /** UpdateAlloc, and what it starts to write. */
  function Supplied(f: Fields, alloc: Alloc): (Fields, Option<Alloc>) {
    var g := f.(staged := alloc);
    if !g.wipWrite && !g.finished then (Sent(g), Some(alloc)) else (g.(hasStaged := true), None)
  }

  /** The locked section of OnWriteDone, and what it starts to write. */
  function Landed(f: Fields): (Fields, Option<Alloc>) {
    var g := f.(wipWrite := false);
    if g.hasStaged && !g.finished then (Sent(g.(hasStaged := false)), Some(g.staged)) else (g, None)
  }

  class Buffer {
    var bundle: Alloc

    constructor ()
      ensures bundle == []
    {
      bundle := [];
    }
  }

  class HostReactor {
    const b1: Buffer
    const b2: Buffer
    var stagedAlloc: Buffer
    var wipWriteAlloc: Buffer
    var wipWrite: bool
    var hasStaged: bool
    var finished: bool
    var hasListener: bool

    /** The two pointers name the two buffers. */
    ghost predicate Valid()
      reads this
    {
      && b1 != b2
      && ((stagedAlloc == b1 && wipWriteAlloc == b2) || (stagedAlloc == b2 && wipWriteAlloc == b1))
    }

    ghost function View(): Fields
      reads this, b1, b2
      requires Valid()
    {
      Fields(stagedAlloc.bundle, wipWriteAlloc.bundle, wipWrite, hasStaged, finished, hasListener)
    }

    constructor ()
      ensures Valid() && fresh(b1) && fresh(b2) && View() == NEW_FIELDS
    {
      var x := new Buffer();
      var y := new Buffer();
      b1, b2 := x, y;
      stagedAlloc, wipWriteAlloc := x, y;
      wipWrite, hasStaged, finished, hasListener := false, false, false, false;
    }

    method SendAlloc() returns (written: Alloc)
      requires Valid()
      modifies this
      ensures Valid() && View() == Sent(old(View())) && written == wipWriteAlloc.bundle
    {
      var t := stagedAlloc;
      stagedAlloc := wipWriteAlloc;
      wipWriteAlloc := t;
      wipWrite := true;
      written := wipWriteAlloc.bundle;
    }

    /** The buffer of a write in flight is not modified. */
    method UpdateAlloc(alloc: Alloc) returns (written: Option<Alloc>)
      requires Valid()
      modifies this, b1, b2
      ensures Valid() && (View(), written) == Supplied(old(View()), alloc)
      ensures old(wipWrite) ==> wipWriteAlloc == old(wipWriteAlloc) && unchanged(wipWriteAlloc)
    {
      stagedAlloc.bundle := alloc;
      if !wipWrite && !finished {
        var w := SendAlloc();
        written := Some(w);
      } else {
        hasStaged := true;
        written := None;
      }
    }

    /** OnWriteDone(true). */
    method WriteLanded() returns (written: Option<Alloc>)
      requires Valid()
      modifies this
      ensures Valid() && (View(), written) == Landed(old(View()))
    {
      wipWrite := false;
      written := None;
      if hasStaged && !finished {
        hasStaged := false;
        var w := SendAlloc();
        written := Some(w);
      }
    }

    /** The store at the end of a failed read, or of a failed write without the mutex. */
    method MarkFinished()
      requires Valid()
      modifies this`finished
      ensures Valid() && View() == old(View()).(finished := true)
    {
      finished := true;
    }

    /** lis_ is set by the first read and reset by a failed write. */
    method SetListener(on: bool)
      requires Valid()
      modifies this`hasListener
      ensures Valid() && View() == old(View()).(hasListener := on)
    {
      hasListener := on;
    }
  }
}
