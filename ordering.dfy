/** Upload order of the archive entries: every `.bin` image first, then every
    other entry, each group in archive order. */
module Ordering {
  import opened Strings
  import opened Device

  /** A firmware image, uploaded with `upload_program`. */
  predicate IsBin(name: string)
  {
    EndsWith(name, ".bin")
  }

  /** The entries whose image-ness is `bins`, in their original order. */
  function Select(entries: seq<Entry>, bins: bool): seq<Entry>
    decreases |entries|
  {
    if entries == [] then []
    else
      var last := entries[|entries| - 1];
      Select(entries[..|entries| - 1], bins) + (if IsBin(last.name) == bins then [last] else [])
  }

  /** The order the session uploads in. */
  function Ordered(entries: seq<Entry>): seq<Entry>
  {
    Select(entries, true) + Select(entries, false)
  }

  /** Builds the image list, then extends it in place with the other entries. */
  method OrderEntries(entries: seq<Entry>) returns (fileList: seq<Entry>)
    ensures fileList == Ordered(entries)
  {
    fileList := [];
    var i := 0;
    while i < |entries|
      invariant i <= |entries|
      invariant fileList == Select(entries[..i], true)
    {
      assert entries[..i + 1][..i] == entries[..i];
      if IsBin(entries[i].name) {
        fileList := fileList + [entries[i]];
      }
      i := i + 1;
    }
    assert entries[..i] == entries;
    var images := fileList;
    i := 0;
    while i < |entries|
      invariant i <= |entries|
      invariant fileList == images + Select(entries[..i], false)
    {
      assert entries[..i + 1][..i] == entries[..i];
      if !IsBin(entries[i].name) {
        fileList := fileList + [entries[i]];
      }
      i := i + 1;
    }
    assert entries[..i] == entries;
  }

  /** An entry is selected exactly when it is in the archive and of the
      requested kind. */
  lemma {:induction false} SelectMembers(entries: seq<Entry>, bins: bool)
    ensures forall e :: e in Select(entries, bins) <==> e in entries && IsBin(e.name) == bins
    decreases |entries|
  {
    if entries != [] {
      SelectMembers(entries[..|entries| - 1], bins);
      assert entries == entries[..|entries| - 1] + [entries[|entries| - 1]];
    }
  }

  /** The two groups together hold every entry exactly as often as the
      archive does: the upload order is a permutation of the archive. */
  lemma {:induction false} OrderedIsPermutation(entries: seq<Entry>)
    ensures multiset(Ordered(entries)) == multiset(entries)
  {
    SelectSplitsMultiset(entries);
  }

  lemma {:induction false} SelectSplitsMultiset(entries: seq<Entry>)
    ensures multiset(Select(entries, true)) + multiset(Select(entries, false)) == multiset(entries)
    decreases |entries|
  {
    if entries != [] {
      var init := entries[..|entries| - 1];
      SelectSplitsMultiset(init);
      assert entries == init + [entries[|entries| - 1]];
    }
  }

  /** No image comes after a non-image in the upload order. */
  lemma BinsComeFirst(entries: seq<Entry>)
    ensures forall i, j :: 0 <= i < j < |Ordered(entries)| && IsBin(Ordered(entries)[j].name) ==>
              IsBin(Ordered(entries)[i].name)
  {
    var bins, others := Select(entries, true), Select(entries, false);
    SelectMembers(entries, true);
    SelectMembers(entries, false);
    forall i, j | 0 <= i < j < |Ordered(entries)| && IsBin(Ordered(entries)[j].name)
      ensures IsBin(Ordered(entries)[i].name)
    {
      assert Ordered(entries)[i] in bins;
    }
  }

  /** Each group keeps archive order: its k-th entry sits at a strictly
      increasing archive position `idx[k]`. */
  lemma {:induction false} SelectKeepsOrder(entries: seq<Entry>, bins: bool) returns (idx: seq<nat>)
    ensures |idx| == |Select(entries, bins)|
    ensures forall k :: 0 <= k < |idx| ==> idx[k] < |entries| && entries[idx[k]] == Select(entries, bins)[k]
    ensures forall k, l :: 0 <= k < l < |idx| ==> idx[k] < idx[l]
    decreases |entries|
  {
    if entries == [] {
      idx := [];
    } else {
      var n := |entries| - 1;
      var init := entries[..n];
      idx := SelectKeepsOrder(init, bins);
      if IsBin(entries[n].name) == bins {
        idx := idx + [n];
      }
    }
  }
}
