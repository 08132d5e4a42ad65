/** The rotating file handler of the CSV publisher, which compresses what it rotates out. */
module RotatingFile {
  import opened Wrappers

  /** The log file is slot 0, its backup number i is slot i; a compressed copy counts as its content. */
  type Files = map<nat, string>

  function Slot(files: Files, j: nat): Option<string> {
    if j in files then Some(files[j]) else None
  }

  /** What a rollover leaves in a slot: every backup moves one slot further and the log moves to the
      first one. The last slot keeps its backup if there is none to replace it. */
  function SlotAfter(backupCount: nat, files: Files, j: nat): Option<string> {
    if j == 0 then Some("")
    else if j > backupCount then Slot(files, j)
    else if j - 1 in files then Some(files[j - 1])
    else if j == backupCount then Slot(files, j)
    else None
  }

  ghost predicate RollsOnce(backupCount: nat, before: Files, after: Files) {
    forall j: nat :: Slot(after, j) == SlotAfter(backupCount, before, j)
  }

  /** The same when the countdown has come to i and slots up to i have not been moved yet. */
  function SlotDuring(backupCount: nat, i: nat, files: Files, j: nat): Option<string> {
    if j <= i || j > backupCount then Slot(files, j)
    else if j > i + 1 && j - 1 in files then Some(files[j - 1])
    else if j == backupCount then Slot(files, j)
    else None
  }

  /** `CompressingRotatingFileHandler`, with the files in its directory. */
  class Handler {
    const backupCount: nat
    const compress: bool
    var files: Files

    constructor (backupCount: nat, compress: bool)
      ensures this.backupCount == backupCount && this.compress == compress && files == map[0 := ""]
    {
      this.backupCount, this.compress := backupCount, compress;
      files := map[0 := ""];
    }

    method Write(text: string)
      requires 0 in files
      modifies this
      ensures files == old(files)[0 := old(files)[0] + text]
    {
      files := files[0 := files[0] + text];
    }

    /** The countdown loop: backup i becomes backup i + 1. */
    method ShiftBackups()
      requires backupCount > 0
      modifies this
      ensures forall j: nat :: Slot(files, j) == SlotDuring(backupCount, 0, old(files), j)
    {
      var i := backupCount - 1;
      while i > 0
        invariant 0 <= i < backupCount
        invariant forall j: nat :: Slot(files, j) == SlotDuring(backupCount, i, old(files), j)
      {
        ghost var before := files;
        if i in files {
          if i + 1 in files {
            files := files - {i + 1};
          }
          files := (files - {i})[i + 1 := files[i]];
        }
        forall j: nat
          ensures Slot(files, j) == SlotDuring(backupCount, i - 1, old(files), j)
        {
          assert Slot(before, j) == SlotDuring(backupCount, i, old(files), j);
          assert Slot(before, i) == SlotDuring(backupCount, i, old(files), i);
        }
        i := i - 1;
      }
    }

    /** `doRollover`. Not ok stands for the OSError of removing a log that is not there: without
        compression the log has just been renamed. */
    method DoRollover() returns (ok: bool)
      requires 0 in files
      modifies this
      ensures ok <==> compress || backupCount == 0
      ensures ok ==> RollsOnce(backupCount, old(files), files)
      ensures !ok ==> 0 !in files && Slot(files, 1) == Some(old(files)[0])
    {
      if backupCount > 0 {
        ShiftBackups();
        assert Slot(files, 0) == SlotDuring(backupCount, 0, old(files), 0);
        if 1 in files {
          files := files - {1};
        }
        if compress {
          files := files[1 := files[0]];
        } else {
          files := (files - {0})[1 := files[0]];
        }
      }
      if 0 !in files {
        return false;
      }
      ghost var before := files;
      files := (files - {0})[0 := ""];
      forall j: nat
        ensures Slot(files, j) == SlotAfter(backupCount, old(files), j)
      {
        assert j > 1 && backupCount > 0 ==> Slot(before, j) == SlotDuring(backupCount, 0, old(files), j);
      }
      ok := true;
    }
  }

  // ---------------------------------------------------------------- runs

  /** The files go through one rollover at the end of each epoch, of which the contents are given. */
  ghost predicate Rolls(backupCount: nat, epochs: seq<string>, states: seq<Files>) {
    && |states| == |epochs| + 1 && states[0] == map[0 := ""]
    && forall m: nat :: m < |epochs| ==> RollsOnce(backupCount, states[m][0 := epochs[m]], states[m + 1])
  }

  /** The i-th backup is the log of the i-th most recent epoch, for as many as are kept, and there are
      no other files but the empty log. */
  lemma {:induction false} BackupsAreRecentEpochs(backupCount: nat, epochs: seq<string>, states: seq<Files>, m: nat)
    requires Rolls(backupCount, epochs, states) && m <= |epochs|
    ensures Slot(states[m], 0) == Some("")
    ensures forall i: nat :: i > 0 ==>
              Slot(states[m], i) == if i <= m && i <= backupCount then Some(epochs[m - i]) else None
  {
    if m > 0 {
      BackupsAreRecentEpochs(backupCount, epochs, states, m - 1);
      var before := states[m - 1][0 := epochs[m - 1]];
      assert RollsOnce(backupCount, before, states[m - 1 + 1]);
      assert Slot(states[m - 1 + 1], 0) == SlotAfter(backupCount, before, 0);
      forall i: nat | i > 0
        ensures Slot(states[m], i) == if i <= m && i <= backupCount then Some(epochs[m - i]) else None
      {
        assert Slot(states[m - 1 + 1], i) == SlotAfter(backupCount, before, i);
        assert i > 1 ==> Slot(before, i - 1) == Slot(states[m - 1], i - 1);
        assert Slot(before, i) == Slot(states[m - 1], i);
      }
    }
  }

  lemma RollsMore(backupCount: nat, epochs: seq<string>, states: seq<Files>, epoch: string, after: Files)
    requires Rolls(backupCount, epochs, states)
    requires RollsOnce(backupCount, states[|epochs|][0 := epoch], after)
    ensures Rolls(backupCount, epochs + [epoch], states + [after])
  {
  }

  /** A handler that compresses, over some epochs: what is written in each goes to the log, and a rollover
      ends it. */
  method RollEpochs(handler: Handler, epochs: seq<string>)
    requires handler.compress && handler.files == map[0 := ""]
    modifies handler
    ensures Slot(handler.files, 0) == Some("")
    ensures forall i: nat :: i > 0 ==>
              Slot(handler.files, i) == if i <= |epochs| && i <= handler.backupCount then Some(epochs[|epochs| - i])
                                        else None
  {
    ghost var states := [handler.files];
    for m := 0 to |epochs|
      invariant Rolls(handler.backupCount, epochs[..m], states) && states[m] == handler.files && 0 in handler.files
      invariant Slot(handler.files, 0) == Some("")
    {
      assert "" + epochs[m] == epochs[m];
      handler.Write(epochs[m]);
      assert handler.files == states[m][0 := epochs[m]];
      var ok := handler.DoRollover();
      assert Slot(handler.files, 0) == SlotAfter(handler.backupCount, states[m][0 := epochs[m]], 0);
      RollsMore(handler.backupCount, epochs[..m], states, epochs[m], handler.files);
      states := states + [handler.files];
      assert epochs[..m] + [epochs[m]] == epochs[..m + 1];
    }
    assert epochs[..|epochs|] == epochs;
    BackupsAreRecentEpochs(handler.backupCount, epochs, states, |epochs|);
  }
}
