/**
 * The media inventory of `main` in src/photo_slideshow/to_slide_show.py: the directory
 * listing, sorted, filtered by lower-cased extension and joined to the media directory.
 * The position of a file in the result is the index of its job. Reading the directory is
 * not modelled: the listing is an input.
 */
module Media {
  import opened Text

  predicate IsPhotoName(name: string)
  {
    EndsWith(Lower(name), ".jpg") || EndsWith(Lower(name), ".jpeg")
  }

  predicate IsVideoName(name: string)
  {
    EndsWith(Lower(name), ".mp4") || EndsWith(Lower(name), ".mov")
  }

  predicate IsMediaName(name: string)
  {
    IsPhotoName(name) || IsVideoName(name)
  }

  // ---------------------------------------------------------------------------
  // Sorting, as Python's `sorted` orders strings

  /** `a <= b` in Python's order on strings: code point by code point, a prefix first. */
  predicate Below(a: string, b: string)
  {
    if a == [] then true
    else if b == [] then false
    else if a[0] != b[0] then a[0] < b[0]
    else Below(a[1..], b[1..])
  }

  lemma {:induction false} BelowTotal(a: string, b: string)
    ensures Below(a, b) || Below(b, a)
  {
    if a != [] && b != [] && a[0] == b[0] {
      BelowTotal(a[1..], b[1..]);
    }
  }

  lemma {:induction false} BelowTransitive(a: string, b: string, c: string)
    requires Below(a, b) && Below(b, c)
    ensures Below(a, c)
  {
    if a != [] && a[0] == b[0] && b[0] == c[0] {
      BelowTransitive(a[1..], b[1..], c[1..]);
    }
  }

  predicate Sorted(s: seq<string>)
  {
    forall i, j :: 0 <= i < j < |s| ==> Below(s[i], s[j])
  }

  function Insert(x: string, s: seq<string>): seq<string>
  {
    if s == [] then [x]
    else if Below(x, s[0]) then [x] + s
    else [s[0]] + Insert(x, s[1..])
  }

  lemma SortedCons(h: string, t: seq<string>)
    requires Sorted(t) && forall y :: y in t ==> Below(h, y)
    ensures Sorted([h] + t)
  {
    var s := [h] + t;
    forall i, j | 0 <= i < j < |s| ensures Below(s[i], s[j]) {
      if i > 0 {
        assert s[i] == t[i - 1] && s[j] == t[j - 1];
      } else {
        assert s[j] == t[j - 1];
      }
    }
  }

  lemma {:induction false} InsertSorted(x: string, s: seq<string>)
    requires Sorted(s)
    ensures multiset(Insert(x, s)) == multiset(s) + multiset{x}
    ensures Sorted(Insert(x, s))
  {
    if s == [] {
    } else if Below(x, s[0]) {
      InsertFront(x, s);
    } else {
      assert Sorted(s[1..]);
      InsertSorted(x, s[1..]);
      InsertLater(x, s);
    }
  }

  /** A name that sorts before the head of a sorted list goes in front. */
  lemma InsertFront(x: string, s: seq<string>)
    requires Sorted(s) && s != [] && Below(x, s[0])
    ensures Sorted([x] + s)
  {
    forall y | y in s ensures Below(x, y) {
      var k :| 0 <= k < |s| && s[k] == y;
      if k > 0 { BelowTransitive(x, s[0], y); }
    }
    SortedCons(x, s);
  }

  /** A name that sorts after the head goes into the tail, and the head stays first. */
  lemma InsertLater(x: string, s: seq<string>)
    requires Sorted(s) && s != [] && !Below(x, s[0])
    requires multiset(Insert(x, s[1..])) == multiset(s[1..]) + multiset{x}
    requires Sorted(Insert(x, s[1..]))
    ensures multiset(Insert(x, s)) == multiset(s) + multiset{x}
    ensures Sorted(Insert(x, s))
  {
    var t := s[1..];
    assert s == [s[0]] + t;
    forall y | y in Insert(x, t) ensures Below(s[0], y) {
      assert y in multiset(Insert(x, t));
      if y == x {
        BelowTotal(x, s[0]);
      } else {
        assert y in t;
        var k :| 0 <= k < |t| && t[k] == y;
        assert s[k + 1] == y;
      }
    }
    SortedCons(s[0], Insert(x, t));
  }

  /** `sorted(names)`, as insertion sort. */
  function SortNames(names: seq<string>): seq<string>
  {
    if names == [] then [] else Insert(names[0], SortNames(names[1..]))
  }

  /** Sorting keeps every name as often as it occurs and puts them in Python's order. */
  lemma {:induction false} SortNamesCorrect(names: seq<string>)
    ensures multiset(SortNames(names)) == multiset(names)
    ensures Sorted(SortNames(names))
  {
    if names != [] {
      SortNamesCorrect(names[1..]);
      InsertSorted(names[0], SortNames(names[1..]));
      assert names == [names[0]] + names[1..];
    }
  }

  // ---------------------------------------------------------------------------
  // Filtering by extension

  /** The names of the listing that have a photo or video extension, in listing order. */
  function MediaNames(names: seq<string>): seq<string>
  {
    if names == [] then []
    else
      MediaNames(names[..|names| - 1])
      + (if IsMediaName(names[|names| - 1]) then [names[|names| - 1]] else [])
  }

  /** Every media name is kept as often as it occurs; no other name is kept. */
  lemma {:induction false} MediaNamesCount(names: seq<string>, x: string)
    ensures multiset(MediaNames(names))[x] == if IsMediaName(x) then multiset(names)[x] else 0
  {
    if names != [] {
      var init, last := names[..|names| - 1], names[|names| - 1];
      MediaNamesCount(init, x);
      assert names == init + [last];
    }
  }

  /** Filtering keeps the order of what it keeps. */
  lemma {:induction false} MediaNamesSorted(names: seq<string>)
    requires Sorted(names)
    ensures Sorted(MediaNames(names))
  {
    if names != [] {
      var init, last := names[..|names| - 1], names[|names| - 1];
      assert Sorted(init);
      MediaNamesSorted(init);
      var kept := MediaNames(init);
      if IsMediaName(last) {
        forall i | 0 <= i < |kept| ensures Below(kept[i], last) {
          MediaNamesCount(init, kept[i]);
          assert kept[i] in multiset(kept);
          var k :| 0 <= k < |init| && init[k] == kept[i];
          assert names[k] == kept[i];
        }
        var s := kept + [last];
        assert MediaNames(names) == s;
        forall i, j | 0 <= i < j < |s| ensures Below(s[i], s[j]) {
          if j < |kept| {
            assert s[i] == kept[i] && s[j] == kept[j];
          }
        }
      }
    }
  }

  /** A name joined to a directory is a photo or a video exactly when the name is. */
  lemma JoinKeepsKind(dir: string, name: string)
    ensures IsPhotoName(PathJoin(dir, name)) <==> IsPhotoName(name)
    ensures IsVideoName(PathJoin(dir, name)) <==> IsVideoName(name)
  {
    JoinKeepsExtension(dir, name, ".jpg");
    JoinKeepsExtension(dir, name, ".jpeg");
    JoinKeepsExtension(dir, name, ".mp4");
    JoinKeepsExtension(dir, name, ".mov");
  }

  // ---------------------------------------------------------------------------
  // The inventory

  function JoinAll(dir: string, names: seq<string>): (paths: seq<string>)
    ensures |paths| == |names|
    ensures forall i :: 0 <= i < |names| ==> paths[i] == PathJoin(dir, names[i])
  {
    seq(|names|, i requires 0 <= i < |names| => PathJoin(dir, names[i]))
  }

  lemma JoinAllAppend(dir: string, names: seq<string>, x: string)
    ensures JoinAll(dir, names + [x]) == JoinAll(dir, names) + [PathJoin(dir, x)]
  {
  }

  lemma MediaNamesNext(names: seq<string>, i: nat)
    requires i < |names|
    ensures MediaNames(names[..i + 1]) == MediaNames(names[..i]) + (if IsMediaName(names[i]) then [names[i]] else [])
  {
    assert names[..i + 1][..i] == names[..i];
  }

  /** The names of the files the slideshow is made of, in the order of their jobs. */
  function InventoryNames(listing: seq<string>): seq<string>
  {
    MediaNames(SortNames(listing))
  }

  /** The paths of those files, `os.path.join(media_dir, f)` for each. */
  function Inventory(listing: seq<string>, mediaDir: string): seq<string>
  {
    JoinAll(mediaDir, InventoryNames(listing))
  }

  /**
   * The inventory holds exactly the media names of the listing, each as often as it is
   * listed, in sorted order.
   */
  lemma InventoryContents(listing: seq<string>)
    ensures Sorted(InventoryNames(listing))
    ensures forall x ::
              multiset(InventoryNames(listing))[x] == if IsMediaName(x) then multiset(listing)[x] else 0
    ensures forall x :: x in InventoryNames(listing) <==> x in listing && IsMediaName(x)
  {
    var sorted := SortNames(listing);
    SortNamesCorrect(listing);
    MediaNamesSorted(sorted);
    forall x ensures multiset(InventoryNames(listing))[x] ==
      (if IsMediaName(x) then multiset(listing)[x] else 0)
    {
      MediaNamesCount(sorted, x);
    }
    forall x ensures x in InventoryNames(listing) <==> x in listing && IsMediaName(x) {
      MediaNamesCount(sorted, x);
      assert x in InventoryNames(listing) <==> x in multiset(InventoryNames(listing));
      assert x in listing <==> x in multiset(listing);
    }
  }

  /**
   * The loop of `main` that walks the sorted listing and appends the path of every
   * photo or video to `media_files`.
   */
  method BuildInventory(listing: seq<string>, mediaDir: string) returns (mediaFiles: seq<string>)
    ensures mediaFiles == Inventory(listing, mediaDir)
  {
    var names := SortNames(listing);
    mediaFiles := [];
    var i := 0;
    while i < |names|
      invariant 0 <= i <= |names|
      invariant mediaFiles == JoinAll(mediaDir, MediaNames(names[..i]))
    {
      var f := names[i];
      MediaNamesNext(names, i);
      if IsPhotoName(f) || IsVideoName(f) {
        JoinAllAppend(mediaDir, MediaNames(names[..i]), f);
        mediaFiles := mediaFiles + [PathJoin(mediaDir, f)];
      }
      i := i + 1;
    }
    assert names[..i] == names;
  }
}
