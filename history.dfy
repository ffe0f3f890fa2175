/** The undo/redo stack of edit snapshots (core/history.py). Each snapshot is a
    whole remove list, not a delta. */
module History {
  import opened Segments

  datatype EditState = EditState(removeSegments: seq<Segment>)

  /** UndoRedoStack: two lists of snapshots; the last element of each is its top. */
  class UndoRedoStack {
    var undoStack: seq<EditState>
    var redoStack: seq<EditState>

    constructor ()
      ensures undoStack == [] && redoStack == []
    {
      undoStack := [];
      redoStack := [];
    }

    /** push: the snapshot goes on the undo list and the redo list is cleared. */
    method Push(state: EditState)
      modifies this
      ensures undoStack == old(undoStack) + [state]
      ensures redoStack == []
    {
      undoStack := undoStack + [state];
      redoStack := [];
    }

    /** undo: with nothing to undo, hands back current and changes nothing;
        otherwise current goes on the redo list and the top of the undo list
        comes back. */
    method Undo(current: EditState) returns (restored: EditState)
      modifies this
      ensures old(undoStack) == [] ==>
                restored == current && undoStack == old(undoStack) && redoStack == old(redoStack)
      ensures old(undoStack) != [] ==>
                restored == old(undoStack)[|old(undoStack)| - 1] &&
                undoStack == old(undoStack)[..|old(undoStack)| - 1] &&
                redoStack == old(redoStack) + [current]
      ensures |undoStack| + |redoStack| == old(|undoStack| + |redoStack|)
    {
      if undoStack == [] {
        return current;
      }
      redoStack := redoStack + [current];
      restored := undoStack[|undoStack| - 1];
      undoStack := undoStack[..|undoStack| - 1];
    }

    /** redo: the mirror image of undo. */
    method Redo(current: EditState) returns (restored: EditState)
      modifies this
      ensures old(redoStack) == [] ==>
                restored == current && undoStack == old(undoStack) && redoStack == old(redoStack)
      ensures old(redoStack) != [] ==>
                restored == old(redoStack)[|old(redoStack)| - 1] &&
                redoStack == old(redoStack)[..|old(redoStack)| - 1] &&
                undoStack == old(undoStack) + [current]
      ensures |undoStack| + |redoStack| == old(|undoStack| + |redoStack|)
    {
      if redoStack == [] {
        return current;
      }
      undoStack := undoStack + [current];
      restored := redoStack[|redoStack| - 1];
      redoStack := redoStack[..|redoStack| - 1];
    }

    /** can_undo: an undo would restore a snapshot rather than hand back its argument. */
    predicate CanUndo()
      reads this
      ensures CanUndo() <==> |undoStack| > 0
    {
      undoStack != []
    }

    /** can_redo: a redo would restore a snapshot rather than hand back its argument. */
    predicate CanRedo()
      reads this
      ensures CanRedo() <==> |redoStack| > 0
    {
      redoStack != []
    }
  }

  /** An undo followed by a redo gives back the state the undo started from and
      leaves both lists exactly as they were. */
  method UndoThenRedo(h: UndoRedoStack, current: EditState) returns (back: EditState)
    requires h.CanUndo()
    modifies h
    ensures back == current
    ensures h.undoStack == old(h.undoStack) && h.redoStack == old(h.redoStack)
  {
    var previous := h.Undo(current);
    assert h.CanRedo();
    back := h.Redo(previous);
  }

  /** A redo followed by an undo gives back the state the redo started from and
      leaves both lists exactly as they were. */
  method RedoThenUndo(h: UndoRedoStack, current: EditState) returns (back: EditState)
    requires h.CanRedo()
    modifies h
    ensures back == current
    ensures h.undoStack == old(h.undoStack) && h.redoStack == old(h.redoStack)
  {
    var next := h.Redo(current);
    assert h.CanUndo();
    back := h.Undo(next);
  }

  /** Committing an edit after an undo discards the redo history: the branch
      that was undone can no longer be redone. */
  method EditAfterUndo(h: UndoRedoStack, current: EditState, edit: EditState) returns (restored: EditState)
    requires h.CanUndo()
    modifies h
    ensures !h.CanRedo() && h.CanUndo()
    ensures h.undoStack == old(h.undoStack)[..|old(h.undoStack)| - 1] + [edit]
  {
    restored := h.Undo(current);
    h.Push(edit);
  }
}
