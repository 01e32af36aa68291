/** The album screen's list logic: the selection toggled by taps, the bottom-bar button
    that either asks for a new collection or removes the selected photos, and the
    completion that installs a newly fetched collection. */
module PhotoAlbum {
  import opened Basics
  import opened Records
  import opened FlickrClient

  /** A grid position (`NSIndexPath`). */
  datatype IndexPath = IndexPath(section: int, row: int)

  const RemoveSelectedTitle := "Remove Selected Photos"
  const NewCollectionTitle := "New Collection"

  /** The alpha of a selected cell and of an unselected one. */
  const SelectedAlpha := 0.3
  const UnselectedAlpha := 1.0

  predicate NoDuplicates<T(==)>(s: seq<T>) {
    forall i, j :: 0 <= i < j < |s| ==> s[i] != s[j]
  }

  /** Taking one position out of a sequence without duplicates leaves none. */
  lemma RemoveAtKeepsNoDuplicates<T>(s: seq<T>, r: nat)
    requires NoDuplicates(s) && r < |s|
    ensures NoDuplicates(s[..r] + s[r + 1..])
  {
    var t := s[..r] + s[r + 1..];
    forall a, b | 0 <= a < b < |t| ensures t[a] != t[b] {
      var a' := if a < r then a else a + 1;
      var b' := if b < r then b else b + 1;
      assert t[a] == s[a'] && t[b] == s[b'];
    }
  }

  // ---------------------------------------------------------------------------
  // Selection

  /** `indexOf`: the first position holding `x`, if any. */
  function IndexOf(s: seq<IndexPath>, x: IndexPath): (r: Option<nat>)
    ensures r.None? <==> x !in s
    ensures r.Some? ==> r.value < |s| && s[r.value] == x && x !in s[..r.value]
  {
    if s == [] then None
    else if s[0] == x then Some(0)
    else match IndexOf(s[1..], x)
      case None => None
      case Some(i) =>
        assert s[..i + 1] == [s[0]] + s[1..][..i];
        Some(i + 1)
  }

  /** What a tap does to the selection: a selected position is removed, any other one is
      appended. */
  function Toggle(s: seq<IndexPath>, x: IndexPath): (t: seq<IndexPath>)
    ensures x !in s ==> t == s + [x]
    ensures x in s ==> |t| == |s| - 1 && multiset(t) == multiset(s) - multiset{x}
    ensures x in s ==> exists i :: 0 <= i < |s| && s[i] == x && x !in s[..i] && t == s[..i] + s[i + 1..]
  {
    match IndexOf(s, x)
    case Some(i) =>
      assert s == s[..i] + [x] + s[i + 1..];
      s[..i] + s[i + 1..]
    case None => s + [x]
  }

  /** Without duplicates, a tap flips the membership of the tapped position and of no
      other. */
  lemma {:induction false} ToggleMembership(s: seq<IndexPath>, x: IndexPath)
    requires NoDuplicates(s)
    ensures x in Toggle(s, x) <==> x !in s
    ensures forall y :: y != x ==> (y in Toggle(s, x) <==> y in s)
  {
    match IndexOf(s, x)
    case None =>
    case Some(i) =>
      assert s == s[..i] + [x] + s[i + 1..];
  }

  /** A tap never introduces a duplicate. */
  lemma {:induction false} ToggleKeepsNoDuplicates(s: seq<IndexPath>, x: IndexPath)
    requires NoDuplicates(s)
    ensures NoDuplicates(Toggle(s, x))
  {
    match IndexOf(s, x)
    case None =>
    case Some(i) =>
      RemoveAtKeepsNoDuplicates(s, i);
  }

  /** Two taps on the same position restore the selection's membership; when the position
      was not selected they restore the selection exactly. */
  lemma {:induction false} ToggleTwice(s: seq<IndexPath>, x: IndexPath)
    requires NoDuplicates(s)
    ensures forall y :: y in Toggle(Toggle(s, x), x) <==> y in s
    ensures x !in s ==> Toggle(Toggle(s, x), x) == s
  {
    ToggleMembership(s, x);
    ToggleKeepsNoDuplicates(s, x);
    ToggleMembership(Toggle(s, x), x);
    if x !in s {
      var t := s + [x];
      assert Toggle(s, x) == t;
      assert t[..|s|] == s;
    }
  }

  /** The bottom-bar title: "Remove Selected Photos" exactly when something is selected. */
  function TitleFor(selected: seq<IndexPath>): (title: string)
    ensures title == RemoveSelectedTitle <==> |selected| > 0
    ensures title == NewCollectionTitle <==> |selected| == 0
  {
    assert RemoveSelectedTitle[0] != NewCollectionTitle[0];
    if |selected| > 0 then RemoveSelectedTitle else NewCollectionTitle
  }

  /** The alpha a cell shows for the current selection. */
  function AlphaFor(selected: seq<IndexPath>, indexPath: IndexPath): (alpha: real)
    ensures alpha == SelectedAlpha <==> indexPath in selected
    ensures alpha == UnselectedAlpha <==> indexPath !in selected
  {
    if indexPath in selected then SelectedAlpha else UnselectedAlpha
  }

  /** The alpha a tap gives the tapped cell is the one the grid shows for it afterwards,
      and it differs from the one it had. */
  lemma TapAlphaMatchesGrid(selected: seq<IndexPath>, indexPath: IndexPath)
    requires NoDuplicates(selected)
    ensures AlphaFor(Toggle(selected, indexPath), indexPath)
         == (if indexPath in selected then UnselectedAlpha else SelectedAlpha)
    ensures AlphaFor(Toggle(selected, indexPath), indexPath) != AlphaFor(selected, indexPath)
  {
    ToggleMembership(selected, indexPath);
  }

  // ---------------------------------------------------------------------------
  // Removing the selected photos, as written

  /** The photos left and the photos removed, in removal order. */
  datatype Removal<T> = Removal(kept: seq<T>, removed: seq<T>)

  /** The removal loop of `bottomBarButtonTapped` as written: each selected row, in
      selection order, is removed from the array as it stands after the previous removals;
      a row past its end traps (`None`). So the loop runs through exactly when the k-th
      selected row lies below `|photos| - k`, and then removes one photo per row. */
  function RemoveRowsAsWritten<T>(photos: seq<T>, selection: seq<IndexPath>): (r: Option<Removal<T>>)
    ensures r.Some? <==> forall k :: 0 <= k < |selection| ==> 0 <= selection[k].row < |photos| - k
    ensures r.Some? ==> |r.value.removed| == |selection| && |r.value.kept| == |photos| - |selection|
    decreases |selection|
  {
    if selection == [] then Some(Removal(photos, []))
    else
      match RemoveRowsAsWritten(photos, selection[..|selection| - 1])
      case None => None
      case Some(done) =>
        var row := selection[|selection| - 1].row;
        if 0 <= row < |done.kept| then
          Some(Removal(done.kept[..row] + done.kept[row + 1..], done.removed + [done.kept[row]]))
        else
          None
  }

  /** When the loop does not trap it removes one photo per selected row, and the photos
      kept and removed are together exactly the photos it started with. */
  lemma {:induction false} RemovalAccounting<T>(photos: seq<T>, selection: seq<IndexPath>)
    requires RemoveRowsAsWritten(photos, selection).Some?
    ensures var r := RemoveRowsAsWritten(photos, selection).value;
      && |r.removed| == |selection|
      && |r.kept| == |photos| - |selection|
      && multiset(r.kept) + multiset(r.removed) == multiset(photos)
  {
    if selection != [] {
      var prefix := selection[..|selection| - 1];
      RemovalAccounting(photos, prefix);
      var done := RemoveRowsAsWritten(photos, prefix).value;
      var row := selection[|selection| - 1].row;
      assert done.kept == done.kept[..row] + [done.kept[row]] + done.kept[row + 1..];
    }
  }

  /** One more turn of the removal loop. */
  lemma RemoveRowsStep<T>(photos: seq<T>, selection: seq<IndexPath>, i: nat, done: Removal<T>)
    requires i < |selection|
    requires RemoveRowsAsWritten(photos, selection[..i]) == Some(done)
    ensures var row := selection[i].row;
      RemoveRowsAsWritten(photos, selection[..i + 1])
        == if 0 <= row < |done.kept| then
             Some(Removal(done.kept[..row] + done.kept[row + 1..], done.removed + [done.kept[row]]))
           else None
  {
    assert selection[..i + 1][..i] == selection[..i];
  }

  /** Once a row traps, the whole loop traps. */
  lemma {:induction false} TrapIsFinal<T>(photos: seq<T>, selection: seq<IndexPath>, k: nat)
    requires k <= |selection|
    requires RemoveRowsAsWritten(photos, selection[..k]).None?
    ensures RemoveRowsAsWritten(photos, selection).None?
    decreases |selection| - k
  {
    if k < |selection| {
      assert selection[..k + 1][..k] == selection[..k];
      TrapIsFinal(photos, selection, k + 1);
    } else {
      assert selection[..k] == selection;
    }
  }

  /** Selecting rows 0 then 1 of three photos removes the photos of rows 0 and 2 and keeps
      the selected photo of row 1. */
  lemma AsWrittenRemovesWrongPhoto()
    ensures RemoveRowsAsWritten([10, 11, 12], [IndexPath(0, 0), IndexPath(0, 1)]) == Some(Removal([11], [10, 12]))
    ensures KeepUnselected([10, 11, 12], {0, 1}) == [12]
  {
    var both := [IndexPath(0, 0), IndexPath(0, 1)];
    assert both[..1] == [IndexPath(0, 0)] && both[..2] == both;
    FirstRemovalOfThree([10, 11, 12], both[..1]);
    RemoveRowsStep([10, 11, 12], both, 1, Removal([11, 12], [10]));
    assert both[1].row == 1;
    assert [11, 12][..1] + [11, 12][2..] == [11] && [10] + [[11, 12][1]] == [10, 12];
    IntendedRemovalOfThree();
  }

  lemma IntendedRemovalOfThree()
    ensures KeepUnselected([10, 11, 12], {0, 1}) == [12]
  {
    assert KeepFrom([12], {0, 1}, 2) == [12];
    assert KeepFrom([11, 12], {0, 1}, 1) == [12] by { assert [11, 12][1..] == [12]; }
    assert [10, 11, 12][1..] == [11, 12];
  }

  /** Selecting rows 0 then 2 of three photos traps: row 2 is past the end of the array
      that is left after the first removal. */
  lemma AsWrittenTrapsPastShrunkEnd()
    ensures RemoveRowsAsWritten([10, 11, 12], [IndexPath(0, 0), IndexPath(0, 2)]).None?
  {
    var photos := [10, 11, 12];
    var first := [IndexPath(0, 0)];
    var both := first + [IndexPath(0, 2)];
    FirstRemovalOfThree(photos, first);
    assert both[..|both| - 1] == first;
    assert both[|both| - 1].row == 2;
  }

  lemma FirstRemovalOfThree(photos: seq<int>, first: seq<IndexPath>)
    requires photos == [10, 11, 12] && first == [IndexPath(0, 0)]
    ensures RemoveRowsAsWritten(photos, first) == Some(Removal([11, 12], [10]))
  {
    assert first[..|first| - 1] == [];
    var done := Removal(photos, []);
    assert RemoveRowsAsWritten(photos, first[..|first| - 1]) == Some(done);
    assert first[|first| - 1].row == 0;
    assert done.kept[..0] + done.kept[0 + 1..] == [11, 12];
    assert done.removed + [done.kept[0]] == [10];
  }

  // ---------------------------------------------------------------------------
  // Removing the selected photos, as intended

  /** The photos whose row, counted from `base`, is not in `rows`, in their order. */
  function KeepFrom<T>(photos: seq<T>, rows: set<int>, base: int): seq<T>
    decreases |photos|
  {
    if photos == [] then []
    else (if base in rows then [] else [photos[0]]) + KeepFrom(photos[1..], rows, base + 1)
  }

  /** The intended result of removing the selected rows: every photo whose original row was
      not selected, in order. */
  function KeepUnselected<T>(photos: seq<T>, rows: set<int>): seq<T> {
    KeepFrom(photos, rows, 0)
  }

  /** Every photo the intended removal keeps sits at an unselected row. */
  lemma {:induction false} KeepFromSound<T>(photos: seq<T>, rows: set<int>, base: int, y: T)
    requires y in KeepFrom(photos, rows, base)
    ensures exists i :: 0 <= i < |photos| && base + i !in rows && photos[i] == y
    decreases |photos|
  {
    var rest := photos[1..];
    var head := if base in rows then [] else [photos[0]];
    assert KeepFrom(photos, rows, base) == head + KeepFrom(rest, rows, base + 1);
    if y in head {
      assert base + 0 !in rows && photos[0] == y;
    } else {
      KeepFromSound(rest, rows, base + 1, y);
      var i :| 0 <= i < |rest| && base + 1 + i !in rows && rest[i] == y;
      assert base + (i + 1) !in rows && photos[i + 1] == y;
    }
  }

  /** Every photo at an unselected row is kept by the intended removal. */
  lemma {:induction false} KeepFromComplete<T>(photos: seq<T>, rows: set<int>, base: int, i: int)
    requires 0 <= i < |photos| && base + i !in rows
    ensures photos[i] in KeepFrom(photos, rows, base)
    decreases |photos|
  {
    var rest := photos[1..];
    var head := if base in rows then [] else [photos[0]];
    assert KeepFrom(photos, rows, base) == head + KeepFrom(rest, rows, base + 1);
    if i > 0 {
      KeepFromComplete(rest, rows, base + 1, i - 1);
      assert rest[i - 1] == photos[i];
    }
  }

  /** A photo is kept by the intended removal exactly when it sits at an unselected row. */
  lemma KeepFromMembership<T>(photos: seq<T>, rows: set<int>, base: int, y: T)
    ensures y in KeepFrom(photos, rows, base) <==>
              exists i :: 0 <= i < |photos| && base + i !in rows && photos[i] == y
  {
    if y in KeepFrom(photos, rows, base) {
      KeepFromSound(photos, rows, base, y);
    } else {
      forall i | 0 <= i < |photos| && base + i !in rows
        ensures photos[i] != y
      {
        KeepFromComplete(photos, rows, base, i);
      }
    }
  }

  /** For photos without duplicates, a photo survives exactly when its original row was
      not selected. */
  lemma KeepUnselectedIsIntended<T>(photos: seq<T>, rows: set<int>)
    requires NoDuplicates(photos)
    ensures forall i :: 0 <= i < |photos| ==> (photos[i] in KeepUnselected(photos, rows) <==> i !in rows)
  {
    forall i | 0 <= i < |photos|
      ensures photos[i] in KeepUnselected(photos, rows) <==> i !in rows
    {
      KeepFromMembership(photos, rows, 0, photos[i]);
    }
  }

  lemma {:induction false} KeepFromSplit<T>(a: seq<T>, b: seq<T>, rows: set<int>, base: int)
    ensures KeepFrom(a + b, rows, base) == KeepFrom(a, rows, base) + KeepFrom(b, rows, base + |a|)
    decreases |a|
  {
    if a != [] {
      assert (a + b)[1..] == a[1..] + b;
      KeepFromSplit(a[1..], b, rows, base + 1);
    } else {
      assert a + b == b;
    }
  }

  lemma {:induction false} KeepFromNoneSelected<T>(photos: seq<T>, rows: set<int>, base: int)
    requires forall i :: base <= i < base + |photos| ==> i !in rows
    ensures KeepFrom(photos, rows, base) == photos
    decreases |photos|
  {
    if photos != [] {
      KeepFromNoneSelected(photos[1..], rows, base + 1);
    }
  }

  lemma {:induction false} KeepFromAgree<T>(photos: seq<T>, rows: set<int>, rows': set<int>, base: int)
    requires forall i :: base <= i < base + |photos| ==> (i in rows <==> i in rows')
    ensures KeepFrom(photos, rows, base) == KeepFrom(photos, rows', base)
    decreases |photos|
  {
    if photos != [] {
      KeepFromAgree(photos[1..], rows, rows', base + 1);
    }
  }

  /** The rows of a selection. */
  function RowSet(selection: seq<IndexPath>): set<int> {
    set k | 0 <= k < |selection| :: selection[k].row
  }

  predicate StrictlyDescendingRows(selection: seq<IndexPath>) {
    forall i, j :: 0 <= i < j < |selection| ==> selection[i].row > selection[j].row
  }

  /** A single photo is kept exactly when its row is not selected. */
  lemma KeepFromOne<T>(photo: T, rows: set<int>, base: int)
    ensures KeepFrom([photo], rows, base) == if base in rows then [] else [photo]
  {
    assert [photo][1..] == [];
  }

  /** With no selected row at or below `r`, the photos up to `r` are all kept. */
  lemma KeptThroughRow<T>(photos: seq<T>, rows: set<int>, r: int)
    requires 0 <= r < |photos|
    requires forall x :: x in rows ==> x > r
    ensures KeepUnselected(photos, rows) == photos[..r] + [photos[r]] + KeepFrom(photos[r + 1..], rows, r + 1)
  {
    var before, here, after := photos[..r], [photos[r]], photos[r + 1..];
    assert photos == before + (here + after) && |before| == r;
    forall i | 0 <= i < r ensures i !in rows {
    }
    calc {
      KeepUnselected(photos, rows);
      { KeepFromSplit(before, here + after, rows, 0); }
      KeepFrom(before, rows, 0) + KeepFrom(here + after, rows, r);
      { KeepFromSplit(here, after, rows, r); }
      KeepFrom(before, rows, 0) + (KeepFrom(here, rows, r) + KeepFrom(after, rows, r + 1));
      { KeepFromNoneSelected(before, rows, 0); KeepFromOne(photos[r], rows, r); }
      before + (here + KeepFrom(after, rows, r + 1));
    }
  }

  /** With `r` the lowest selected row, the photos before `r` are kept, the photo at `r`
      is not. */
  lemma KeptAroundSelectedRow<T>(photos: seq<T>, rows: set<int>, r: int)
    requires 0 <= r < |photos|
    requires forall x :: x in rows ==> x > r
    ensures KeepUnselected(photos, rows + {r}) == photos[..r] + KeepFrom(photos[r + 1..], rows, r + 1)
  {
    var selected := rows + {r};
    var before, here, after := photos[..r], [photos[r]], photos[r + 1..];
    assert photos == before + (here + after) && |before| == r;
    forall i | 0 <= i < r ensures i !in selected {
    }
    forall i | r + 1 <= i ensures i in selected <==> i in rows {
    }
    calc {
      KeepUnselected(photos, selected);
      { KeepFromSplit(before, here + after, selected, 0); }
      KeepFrom(before, selected, 0) + KeepFrom(here + after, selected, r);
      { KeepFromSplit(here, after, selected, r); }
      KeepFrom(before, selected, 0) + (KeepFrom(here, selected, r) + KeepFrom(after, selected, r + 1));
      { KeepFromNoneSelected(before, selected, 0); KeepFromOne(photos[r], selected, r); }
      before + KeepFrom(after, selected, r + 1);
      { KeepFromAgree(after, selected, rows, r + 1); }
      before + KeepFrom(after, rows, r + 1);
    }
  }

  /** When every other selected row lies above `r`, removing row `r` from the photos kept
      so far gives the photos kept once `r` is selected as well. */
  lemma KeepAroundRow<T>(photos: seq<T>, rows: set<int>, r: int)
    requires 0 <= r < |photos|
    requires forall x :: x in rows ==> x > r
    ensures var kept := KeepUnselected(photos, rows);
      && r < |kept| && kept[r] == photos[r]
      && kept[..r] + kept[r + 1..] == KeepUnselected(photos, rows + {r})
  {
    KeptThroughRow(photos, rows, r);
    KeptAroundSelectedRow(photos, rows, r);
    var kept := KeepUnselected(photos, rows);
    var tail := KeepFrom(photos[r + 1..], rows, r + 1);
    assert kept[..r] == photos[..r] && kept[r + 1..] == tail;
  }

  lemma RowSetOfPrefix(selection: seq<IndexPath>)
    requires selection != []
    ensures RowSet(selection) == RowSet(selection[..|selection| - 1]) + {selection[|selection| - 1].row}
  {
    var prefix := selection[..|selection| - 1];
    forall x | x in RowSet(selection)
      ensures x in RowSet(prefix) + {selection[|selection| - 1].row}
    {
      var k :| 0 <= k < |selection| && selection[k].row == x;
      if k < |prefix| { assert prefix[k].row == x; }
    }
    forall x | x in RowSet(prefix)
      ensures x in RowSet(selection)
    {
      var k :| 0 <= k < |prefix| && prefix[k].row == x;
      assert selection[k].row == x;
    }
  }

  /** The photos at the selected rows, in selection order. */
  function PhotosAtRows<T>(photos: seq<T>, selection: seq<IndexPath>): seq<T>
    requires forall k :: 0 <= k < |selection| ==> 0 <= selection[k].row < |photos|
  {
    seq(|selection|, k requires 0 <= k < |selection| => photos[selection[k].row])
  }

  /** What a descending selection's last row adds to what its prefix selects. */
  lemma DescendingLastRow<T>(photos: seq<T>, selection: seq<IndexPath>)
    requires selection != [] && StrictlyDescendingRows(selection)
    requires forall k :: 0 <= k < |selection| ==> 0 <= selection[k].row < |photos|
    ensures var prefix, r := selection[..|selection| - 1], selection[|selection| - 1].row;
      && StrictlyDescendingRows(prefix)
      && (forall k :: 0 <= k < |prefix| ==> 0 <= prefix[k].row < |photos|)
      && (forall x :: x in RowSet(prefix) ==> x > r)
      && RowSet(selection) == RowSet(prefix) + {r}
      && PhotosAtRows(photos, selection) == PhotosAtRows(photos, prefix) + [photos[r]]
  {
    var n := |selection|;
    var prefix, r := selection[..n - 1], selection[n - 1].row;
    RowSetOfPrefix(selection);
    forall x | x in RowSet(prefix) ensures x > r {
      var k :| 0 <= k < |prefix| && prefix[k].row == x;
      assert selection[k].row == x;
    }
    assert PhotosAtRows(photos, prefix) + [photos[r]] == PhotosAtRows(photos, selection);
  }

  /** The removal loop does what was intended when it visits the selected rows from the
      largest down: it keeps exactly the unselected photos, in order, and removes the
      photo of each selected row. */
  lemma {:induction false} DescendingRemovalKeepsUnselected<T>(photos: seq<T>, selection: seq<IndexPath>)
    requires StrictlyDescendingRows(selection)
    requires forall k :: 0 <= k < |selection| ==> 0 <= selection[k].row < |photos|
    ensures RemoveRowsAsWritten(photos, selection)
         == Some(Removal(KeepUnselected(photos, RowSet(selection)), PhotosAtRows(photos, selection)))
    decreases |selection|
  {
    if selection == [] {
      KeepFromNoneSelected(photos, {}, 0);
      assert RowSet(selection) == {} && PhotosAtRows(photos, selection) == [];
    } else {
      var prefix, r := selection[..|selection| - 1], selection[|selection| - 1].row;
      DescendingLastRow(photos, selection);
      DescendingRemovalKeepsUnselected(photos, prefix);
      KeepAroundRow(photos, RowSet(prefix), r);
      assert selection[..|selection|] == selection;
      RemoveRowsStep(photos, selection, |selection| - 1,
                     Removal(KeepUnselected(photos, RowSet(prefix)), PhotosAtRows(photos, prefix)));
    }
  }

  // ---------------------------------------------------------------------------
  // The controller

  /** The album screen's state: its pin, the photos in the grid, the selected positions,
      the bottom-bar button and the "no images" label, and the number of collection
      requests started. */
  class PhotoAlbumViewController {
    const pin: Pin
    const context: Context
    var photos: seq<Photo>
    var selectedIndexes: seq<IndexPath>
    var bottomBarTitle: string
    var bottomBarEnabled: bool
    var noImagesShown: bool
    var fetchesStarted: nat

    /** The grid never shows a photo twice, the selection never holds a position twice,
        and the button title follows the selection. */
    ghost predicate Valid()
      reads this
    {
      NoDuplicates(photos) && NoDuplicates(selectedIndexes) && bottomBarTitle == TitleFor(selectedIndexes)
    }

    /** A loaded screen for a pin. The segue that opens it hands over the pin's photos
        (`allObjects` of its set, in an order given here as `photos`); no selection, the
        label hidden. */
    constructor (pin: Pin, context: Context, photos: seq<Photo>)
      requires Elements(photos) == Members(pin.photos) && NoDuplicates(photos)
      ensures Valid()
      ensures this.pin == pin && this.context == context
      ensures Elements(this.photos) == Members(pin.photos)
      ensures this.photos == photos && selectedIndexes == [] && !noImagesShown && bottomBarEnabled && fetchesStarted == 0
    {
      this.pin := pin;
      this.context := context;
      this.photos := photos;
      selectedIndexes := [];
      bottomBarTitle := NewCollectionTitle;
      bottomBarEnabled := true;
      noImagesShown := false;
      fetchesStarted := 0;
    }

    /** `collectionView(_:numberOfItemsInSection:)`: one grid item per photo. */
    function NumberOfItemsInSection(): (n: nat)
      reads this
      ensures n == |photos|
    {
      |photos|
    }

    /** `viewWillAppear`: a new collection is requested, with the button disabled, only
        when there are no photos. */
    method ViewWillAppear()
      requires Valid()
      modifies this`bottomBarEnabled, this`fetchesStarted
      ensures Valid()
      ensures old(photos) == [] ==> !bottomBarEnabled && fetchesStarted == old(fetchesStarted) + 1
      ensures old(photos) != [] ==> bottomBarEnabled == old(bottomBarEnabled) && fetchesStarted == old(fetchesStarted)
    {
      if |photos| == 0 {
        bottomBarEnabled := false;
        GetNewCollectionOfPhotos();
      }
    }

    /** `getNewCollectionOfPhotos`: starts the asynchronous search for the pin; its
        completion is `NewCollectionArrived`. */
    method GetNewCollectionOfPhotos()
      modifies this`fetchesStarted
      ensures fetchesStarted == old(fetchesStarted) + 1
    {
      fetchesStarted := fetchesStarted + 1;
    }

    /** `setTextForBottomBarButton`. */
    method SetTextForBottomBarButton()
      modifies this`bottomBarTitle
      ensures bottomBarTitle == TitleFor(selectedIndexes)
      ensures NoDuplicates(photos) && NoDuplicates(selectedIndexes) ==> Valid()
    {
      bottomBarTitle := if |selectedIndexes| > 0 then RemoveSelectedTitle else NewCollectionTitle;
    }

    /** `collectionView(_:didSelectItemAtIndexPath:)`: the tapped position leaves the
        selection when it is in it and is appended otherwise; the returned alpha is the one
        given to the tapped cell. */
    method DidSelectItem(indexPath: IndexPath) returns (cellAlpha: real)
      requires Valid()
      modifies this`selectedIndexes, this`bottomBarTitle
      ensures Valid()
      ensures selectedIndexes == Toggle(old(selectedIndexes), indexPath)
      ensures cellAlpha == AlphaFor(selectedIndexes, indexPath)
    {
      ToggleKeepsNoDuplicates(selectedIndexes, indexPath);
      ToggleMembership(selectedIndexes, indexPath);
      match IndexOf(selectedIndexes, indexPath) {
        case Some(index) =>
          selectedIndexes := selectedIndexes[..index] + selectedIndexes[index + 1..];
          cellAlpha := UnselectedAlpha;
        case None =>
          selectedIndexes := selectedIndexes + [indexPath];
          cellAlpha := SelectedAlpha;
      }
      SetTextForBottomBarButton();
    }

    /** The removal loop of `bottomBarButtonTapped`: each row of `selection`, in order, is
        removed from the shrinking photo array and its photo deleted from the context;
        `trapped` is a row past the end of the array. */
    method RemoveRows(selection: seq<IndexPath>) returns (trapped: bool)
      modifies this`photos, context
      ensures trapped <==> RemoveRowsAsWritten(old(photos), selection).None?
      ensures !trapped ==>
                var removal := RemoveRowsAsWritten(old(photos), selection).value;
                && photos == removal.kept
                && context.photos == old(context.photos) - Elements(removal.removed)
      ensures context.pins == old(context.pins) && context.savedPhotos == old(context.savedPhotos)
      ensures context.savedPins == old(context.savedPins)
      ensures NoDuplicates(old(photos)) ==> NoDuplicates(photos)
    {
      ghost var removed: seq<Photo> := [];
      ghost var distinct := NoDuplicates(photos);
      var i := 0;
      while i < |selection|
        invariant 0 <= i <= |selection|
        invariant RemoveRowsAsWritten(old(photos), selection[..i]) == Some(Removal(photos, removed))
        invariant context.photos == old(context.photos) - Elements(removed)
        invariant context.pins == old(context.pins) && context.savedPhotos == old(context.savedPhotos)
        invariant context.savedPins == old(context.savedPins)
        invariant distinct == NoDuplicates(old(photos))
        invariant distinct ==> NoDuplicates(photos)
      {
        var row := selection[i].row;
        RemoveRowsStep(old(photos), selection, i, Removal(photos, removed));
        if !(0 <= row < |photos|) {
          TrapIsFinal(old(photos), selection, i + 1);
          return true;
        }
        var photo := photos[row];
        if distinct {
          RemoveAtKeepsNoDuplicates(photos, row);
        }
        photos := photos[..row] + photos[row + 1..];
        context.DeleteObject(photo);
        removed := removed + [photo];
        i := i + 1;
      }
      assert selection[..i] == selection;
      return false;
    }

    /** `bottomBarButtonTapped`. With nothing selected: the pin's photos are deleted from
        the context, the grid is emptied and a new collection is requested. Otherwise each
        selected row, in selection order, is removed from the shrinking array and its
        photo deleted from the context; the context is saved once and the selection
        cleared. `trapped` is a row past the end of the array, which ends the process. */
    method BottomBarButtonTapped() returns (trapped: bool)
      requires Valid()
      modifies this, context
      ensures !trapped ==> Valid() && selectedIndexes == [] && bottomBarTitle == NewCollectionTitle
      ensures !trapped ==> bottomBarEnabled == old(bottomBarEnabled) && noImagesShown == old(noImagesShown)
      ensures old(selectedIndexes) == [] ==>
                && !trapped
                && photos == []
                && fetchesStarted == old(fetchesStarted) + 1
                && context.photos == old(context.photos) - Members(pin.photos)
                && context.savedPhotos == old(context.savedPhotos)
                && context.savedPins == old(context.savedPins)
      ensures old(selectedIndexes) != [] ==>
                (trapped <==> RemoveRowsAsWritten(old(photos), old(selectedIndexes)).None?)
      ensures old(selectedIndexes) != [] && !trapped ==>
                var removal := RemoveRowsAsWritten(old(photos), old(selectedIndexes)).value;
                && photos == removal.kept
                && context.photos == old(context.photos) - Elements(removal.removed)
                && context.savedPhotos == context.photos
                && context.savedPins == context.pins
                && fetchesStarted == old(fetchesStarted)
                && NumberOfItemsInSection() == old(NumberOfItemsInSection()) - |old(selectedIndexes)|
      ensures context.pins == old(context.pins)
    {
      trapped := false;
      if selectedIndexes == [] {
        pin.RemovePhotos(context);
        photos := [];
        GetNewCollectionOfPhotos();
      } else {
        trapped := RemoveRows(selectedIndexes);
        if trapped {
          return;
        }
        RemovalAccounting(old(photos), old(selectedIndexes));
        context.SaveContext();
        selectedIndexes := [];
      }
      SetTextForBottomBarButton();
    }

    /** The completion of `getNewCollectionOfPhotos`. On an error, or with no photos,
        nothing changes. Otherwise every photo is attached to the screen's pin, the photos
        replace the grid's, the context is saved, the "no images" label shows exactly when
        the collection is empty, and the button is enabled. A collection arrives as
        `PhotosAtPin` returns it: distinct photos, none of them on a pin yet. */
    method NewCollectionArrived(fetched: Option<seq<Photo>>, error: Option<NetError>)
      requires Valid()
      requires error.None? && fetched.Some? ==>
                 NoDuplicates(fetched.value) && forall p :: p in fetched.value ==> p.pin == null
      modifies this, pin, context
      modifies if error.None? && fetched.Some? then Elements(fetched.value) else {}
      ensures Valid()
      ensures selectedIndexes == old(selectedIndexes) && fetchesStarted == old(fetchesStarted)
      ensures error.Some? || fetched.None? ==>
                unchanged(this) && unchanged(pin) && unchanged(context)
      ensures error.None? && fetched.Some? ==>
                && photos == fetched.value
                && (forall p :: p in photos ==> p.pin == pin)
                && Members(pin.photos) == Members(old(pin.photos)) + Elements(photos)
                && (photos != [] ==> pin.photos.Some?)
                && (forall p :: p in photos ==>
                      p.title == old(p.title) && p.path == old(p.path) && p.imageData == old(p.imageData))
                && context.savedPhotos == context.photos == old(context.photos)
                && context.savedPins == context.pins == old(context.pins)
                && noImagesShown == (photos == [])
                && bottomBarEnabled
    {
      if error.Some? || fetched.None? {
        return;
      }
      var ps := fetched.value;
      for i := 0 to |ps|
        invariant forall j :: 0 <= j < i ==> ps[j].pin == pin
        invariant forall j :: i <= j < |ps| ==> ps[j].pin == null
        invariant Members(pin.photos) == Members(old(pin.photos)) + Elements(ps[..i])
        invariant i > 0 ==> pin.photos.Some?
        invariant forall p :: p in ps ==>
                    p.title == old(p.title) && p.path == old(p.path) && p.imageData == old(p.imageData)
        invariant unchanged(this) && unchanged(context)
      {
        assert ps[i] in Elements(ps);
        assert ps[..i + 1] == ps[..i] + [ps[i]];
        ps[i].SetPin(pin);
      }
      assert ps[..|ps|] == ps;
      photos := ps;
      context.SaveContext();
      noImagesShown := |photos| == 0;
      bottomBarEnabled := true;
    }
  }
}
