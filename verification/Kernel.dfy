/** The part of the simulation kernel a block sees: an input buffer it reads samples from and an
    output buffer that either opens a fresh cell or reports that it is full. */
module Kernel {

  datatype Option<T> = None | Some(value: T)

  class InBuffer<T> {
    /** Samples not read yet, oldest first; |pending| is what AVAIL returns. */
    var pending: seq<T>
    /** Samples already read; the macro x(d) reaches back to taken[|taken| - 1 - d]. */
    var taken: seq<T>

    constructor (samples: seq<T>)
      ensures pending == samples && taken == []
    {
      pending, taken := samples, [];
    }

    method Take() returns (x: T)
      requires pending != []
      modifies this
      ensures x == old(pending)[0] && pending == old(pending)[1..] && taken == old(taken) + [x]
    {
      x := pending[0];
      pending, taken := pending[1..], taken + [x];
    }
  }

  class OutBuffer<T> {
    /** Every sample written so far. */
    var cells: seq<T>
    /** The answers the kernel will give to the next requests for a cell, true meaning "full";
        requests past the end of the list are granted. Any refusal pattern is some `plan`. */
    var plan: seq<bool>

    constructor (answers: seq<bool>)
      ensures cells == [] && plan == answers
    {
      cells := [];
      plan := answers;
    }

    /** Asks for a cell and, if there is one, stores x in it. A refusal changes no cell. */
    method Put(x: T) returns (full: bool)
      modifies this
      ensures full <==> old(plan) != [] && old(plan)[0]
      ensures cells == if full then old(cells) else old(cells) + [x]
      ensures plan == if old(plan) == [] then [] else old(plan)[1..]
    {
      full := plan != [] && plan[0];
      plan := if plan == [] then [] else plan[1..];
      if !full {
        cells := cells + [x];
      }
    }

    /** Writes the newest cell, for a block that asks for its cell first. */
    method Write(x: T)
      requires cells != []
      modifies this`cells
      ensures cells == old(cells)[..|old(cells)| - 1] + [x]
    {
      cells := cells[..|cells| - 1] + [x];
    }
  }

  /** What is out when a visit is broken off: part of what it had to put out, and possibly one more cell
      that was asked for but never written. */
  ghost predicate BrokenOff<T(!new)>(before: seq<T>, due: seq<T>, cells: seq<T>) {
    Partly(before, due, cells) || (cells != [] && Partly(before, due, cells[..|cells| - 1]))
  }

  ghost predicate Partly<T(!new)>(before: seq<T>, due: seq<T>, cells: seq<T>) {
    before <= cells <= before + due
  }

  /** What is due after the first k samples of the stream y, when one sample adds e to it. */
  lemma Continued<T(!new)>(before: seq<T>, y: seq<T>, k: nat, e: seq<T>)
    requires k <= |y|
    ensures (before + y[k..]) + e == before + (y + e)[k..]
    ensures forall cells :: BrokenOff(before + y[k..], e, cells) ==> BrokenOff(before, (y + e)[k..], cells)
  {
    assert (y + e)[k..] == y[k..] + e;
    assert before + y[k..] + e == before + (y[k..] + e);
  }

  /** A stream cut at k, grown by one sample. */
  lemma LastCell<T>(a: seq<T>, v: T, k: nat)
    requires k <= |a|
    ensures (a + [v])[k..] == a[k..] + [v]
    ensures (a + [v])[k..] != [] && (a + [v])[k..][..|(a + [v])[k..]| - 1] == a[k..]
  {
  }
}
