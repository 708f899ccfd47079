/** The list of saved workspaces (WorkspaceListModel in
    workspacelistmodel.cpp): named directories, kept free of duplicates by
    normalised directory when they are added one at a time. */
module Workspaces {

  /** A saved workspace: a display name and a directory. */
  datatype Workspace = Workspace(name: string, dir: string)

  /** The empty workspace workspaceAt returns for a row out of range. */
  const EmptyWorkspace: Workspace := Workspace("", "")

  /** normDir: the directory as QDir::absolutePath renders it. The model
      keeps one effect of that rendering, dropping trailing separators, so
      that `/a/b` and `/a/b/` are the same directory; the list's properties
      below hold whatever NormDir is. */
  function NormDir(p: string): (r: string)
    ensures |r| <= |p|
    ensures |r| <= 1 || r[|r| - 1] != '/'
    decreases |p|
  {
    if |p| > 1 && p[|p| - 1] == '/' then NormDir(p[..|p| - 1]) else p
  }

  /** Normalising a normalised directory changes nothing. */
  lemma NormDirIdempotent(p: string)
    ensures NormDir(NormDir(p)) == NormDir(p)
  {
  }

  /** A trailing separator does not make a different directory. */
  lemma NormDirTrailingSlash(p: string)
    requires p != []
    ensures NormDir(p + "/") == NormDir(p)
  {
    assert (p + "/")[..|p|] == p;
  }

  /** Row i holds the directory dir, up to normalisation. */
  predicate SameDirAt(ws: seq<Workspace>, i: int, dir: string)
    requires 0 <= i < |ws|
  {
    NormDir(ws[i].dir) == NormDir(dir)
  }

  /** Some row holds the directory dir. */
  predicate HasDir(ws: seq<Workspace>, dir: string) {
    exists i :: 0 <= i < |ws| && SameDirAt(ws, i, dir)
  }

  /** No two rows hold the same directory. */
  predicate DistinctDirs(ws: seq<Workspace>) {
    forall i, j :: 0 <= i < j < |ws| ==> NormDir(ws[i].dir) != NormDir(ws[j].dir)
  }

  /** The list removeAt leaves behind: row `row` taken out. */
  function RemoveRow(ws: seq<Workspace>, row: int): (r: seq<Workspace>)
    requires 0 <= row < |ws|
    ensures |r| == |ws| - 1
    ensures forall i :: 0 <= i < row ==> r[i] == ws[i]
    ensures forall i :: row <= i < |r| ==> r[i] == ws[i + 1]
  {
    ws[..row] + ws[row + 1..]
  }

  /** Adding a directory the list does not hold keeps it duplicate-free. */
  lemma AppendKeepsDistinct(ws: seq<Workspace>, w: Workspace)
    requires DistinctDirs(ws) && !HasDir(ws, w.dir)
    ensures DistinctDirs(ws + [w])
  {
    var r := ws + [w];
    forall i, j | 0 <= i < j < |r|
      ensures NormDir(r[i].dir) != NormDir(r[j].dir)
    {
      if j == |ws| {
        assert !SameDirAt(ws, i, w.dir);
      }
    }
  }

  /** Removing a row keeps the list duplicate-free. */
  lemma RemoveKeepsDistinct(ws: seq<Workspace>, row: int)
    requires DistinctDirs(ws) && 0 <= row < |ws|
    ensures DistinctDirs(RemoveRow(ws, row))
  {
    var r := RemoveRow(ws, row);
    forall i, j | 0 <= i < j < |r|
      ensures NormDir(r[i].dir) != NormDir(r[j].dir)
    {
      var i' := if i < row then i else i + 1;
      var j' := if j < row then j else j + 1;
      assert r[i] == ws[i'] && r[j] == ws[j'] && i' < j';
    }
  }

  /** Removing a row keeps the others in their relative order: any two rows
      of the result come from two rows of the list in the same order. */
  lemma RemoveKeepsOrder(ws: seq<Workspace>, row: int, i: int, j: int)
    requires 0 <= row < |ws|
    requires 0 <= i < j < |ws| - 1
    ensures exists i', j' :: (0 <= i' < j' < |ws| && i' != row && j' != row
                              && RemoveRow(ws, row)[i] == ws[i'] && RemoveRow(ws, row)[j] == ws[j'])
  {
    var i' := if i < row then i else i + 1;
    var j' := if j < row then j else j + 1;
    assert RemoveRow(ws, row)[i] == ws[i'] && RemoveRow(ws, row)[j] == ws[j'];
  }

  /** In a duplicate-free list, the row that holds a directory is the only one. */
  lemma DistinctRowIsUnique(ws: seq<Workspace>, i: int, j: int, dir: string)
    requires DistinctDirs(ws)
    requires 0 <= i < |ws| && 0 <= j < |ws|
    requires SameDirAt(ws, i, dir) && SameDirAt(ws, j, dir)
    ensures i == j
  {
  }

  class WorkspaceListModel {
    /** m_ws, the rows in display order. */
    var ws: seq<Workspace>

    constructor()
      ensures ws == []
    {
      ws := [];
    }

    /** rowCount for the (invalid) top-level parent. */
    function RowCount(): nat
      reads this
    {
      |ws|
    }

    /** setWorkspaces: the list is replaced as given, duplicates and all. */
    method SetWorkspaces(w: seq<Workspace>)
      modifies this
      ensures ws == w
    {
      ws := w;
    }

    /** workspaceAt: the row, or the empty workspace when out of range. */
    function WorkspaceAt(row: int): (w: Workspace)
      reads this
      ensures 0 <= row < RowCount() ==> w == ws[row]
      ensures !(0 <= row < RowCount()) ==> w == EmptyWorkspace
    {
      if row < 0 || row >= |ws| then EmptyWorkspace else ws[row]
    }

    /** indexOfDir: the lowest row holding the directory, or -1. */
    method IndexOfDir(dir: string) returns (r: int)
      ensures -1 <= r < |ws|
      ensures r == -1 <==> !HasDir(ws, dir)
      ensures r >= 0 ==> SameDirAt(ws, r, dir)
      ensures r >= 0 ==> forall k :: 0 <= k < r ==> !SameDirAt(ws, k, dir)
    {
      var nd := NormDir(dir);
      var i := 0;
      while i < |ws|
        invariant 0 <= i <= |ws|
        invariant forall k :: 0 <= k < i ==> !SameDirAt(ws, k, dir)
      {
        if NormDir(ws[i].dir) == nd {
          assert SameDirAt(ws, i, dir);
          return i;
        }
        i := i + 1;
      }
      return -1;
    }

    /** containsDir: whether indexOfDir finds a row. */
    method ContainsDir(dir: string) returns (b: bool)
      ensures b <==> HasDir(ws, dir)
    {
      var i := IndexOfDir(dir);
      b := i >= 0;
    }

    /** addWorkspace: nothing happens when the directory is already listed;
        otherwise the workspace is appended as the last row. */
    method AddWorkspace(w: Workspace)
      modifies this
      ensures old(HasDir(ws, w.dir)) ==> ws == old(ws)
      ensures !old(HasDir(ws, w.dir)) ==> ws == old(ws) + [w]
      ensures old(DistinctDirs(ws)) ==> DistinctDirs(ws)
      ensures HasDir(ws, w.dir)
    {
      var present := ContainsDir(w.dir);
      if present {
        return;
      }
      if DistinctDirs(ws) {
        AppendKeepsDistinct(ws, w);
      }
      ws := ws + [w];
      assert SameDirAt(ws, |ws| - 1, w.dir);
    }

    /** removeAt: a row out of range is ignored; otherwise exactly that row
        goes and the rest keep their order. */
    method RemoveAt(row: int)
      modifies this
      ensures !(0 <= row < old(|ws|)) ==> ws == old(ws)
      ensures 0 <= row < old(|ws|) ==> ws == RemoveRow(old(ws), row)
    {
      if row < 0 || row >= |ws| {
        return;
      }
      ws := RemoveRow(ws, row);
    }
  }

  /** After adding a directory the list did not hold, indexOfDir finds it in
      the new last row. */
  lemma AddedIsFoundLast(ws: seq<Workspace>, w: Workspace)
    requires !HasDir(ws, w.dir)
    ensures HasDir(ws + [w], w.dir)
    ensures forall k :: 0 <= k < |ws| ==> !SameDirAt(ws + [w], k, w.dir)
  {
    var r := ws + [w];
    assert SameDirAt(r, |ws|, w.dir);
    forall k | 0 <= k < |ws|
      ensures !SameDirAt(r, k, w.dir)
    {
      assert r[k] == ws[k];
      assert !SameDirAt(ws, k, w.dir);
    }
  }
}
