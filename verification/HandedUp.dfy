/** Searches of a directory after an entry was handed up past its root: a root over five pages with a gap between two. */
module HandedUp {
  import opened Storage
  import opened LeafTree
  import opened DirectoryPages
  import opened DirectoryTree

  // ---- one page with a leftover behind its records ----

  /** A page with these records, and a leftover in the slot behind them. */
  ghost predicate Leftover(p: DirPage, recs: seq<Rec>, x: Rec) {
    p.Fits() && p.Recs() == recs && 0 < |recs| < |p.slots| && p.slots[|recs|] == x
  }

  /** The child that is found: the leftover's, for its key above all others. */
  function ChildAt(recs: seq<Rec>, x: Rec, key: int): int
    requires recs != [] && recs[0].key <= key
  {
    if recs[|recs| - 1].key < key == x.key then x.block else RightChild(recs, key)
  }

  lemma {:induction false} LeftoverFinds(p: DirPage, recs: seq<Rec>, x: Rec, key: int)
    requires Leftover(p, recs, x) && Ascending(recs)
    ensures PageReady(p) && p.slots[0] == recs[0]
    ensures recs[0].key <= key ==> FoundChild(p, key) == ChildAt(recs, x, key)
  {
    assert recs[0] == p.slots[0] && recs[|recs| - 1] == p.slots[p.count - 1];
    if recs[0].key <= key {
      RoutedIff(p, key);
    }
  }

  lemma {:induction false} LeafPage(file: seq<DirPage>, b: nat, recs: seq<Rec>, x: Rec, key: int)
    requires b < |file| && file[b].level == 0 && Leftover(file[b], recs, x) && Ascending(recs)
    ensures Path(file, b, key) <==> recs[0].key <= key
    ensures recs[0].key <= key ==> SearchResult(file, b, key) == ChildAt(recs, x, key)
  {
    LeftoverFinds(file[b], recs, x, key);
  }

  lemma {:induction false} UpperPage(file: seq<DirPage>, b: nat, key: int)
    requires b < |file| && file[b].level > 0 && PageReady(file[b]) && file[b].slots[0].key <= key
    ensures var c := FoundChild(file[b], key);
            (Path(file, b, key) <==> 0 <= c < |file| && file[c].level < file[b].level && Path(file, c, key)) &&
            (Path(file, b, key) ==> SearchResult(file, b, key) == SearchResult(file, c, key))
  {
    hide FoundChild, PageReady;
  }

  // ---- the five pages ----

  /** The part of the records from one position up to another. */
  function Part(recs: seq<Rec>, lo: nat, hi: nat): (part: seq<Rec>)
    requires lo <= hi <= |recs|
    ensures |part| == hi - lo
  {
    recs[lo..hi]
  }

  lemma {:induction false} PartAscends(recs: seq<Rec>, lo: nat, hi: nat)
    requires Ascending(recs) && lo < hi <= |recs|
    ensures Ascending(Part(recs, lo, hi))
    ensures Part(recs, lo, hi)[0] == recs[lo] && Part(recs, lo, hi)[hi - lo - 1] == recs[hi - 1]
  {
  }

  /** The keys of the part route as in the whole. */
  lemma {:induction false} PartRoutes(recs: seq<Rec>, lo: nat, hi: nat, key: int)
    requires Ascending(recs) && lo < hi <= |recs| && recs[lo].key <= key && (hi < |recs| ==> key < recs[hi].key)
    ensures recs[0].key <= key && Part(recs, lo, hi)[0].key <= key
    ensures RightChild(Part(recs, lo, hi), key) == RightChild(recs, key)
  {
    var part := Part(recs, lo, hi);
    PartAscends(recs, lo, hi);
    assert lo > 0 ==> recs[0].key < recs[lo].key;
    var j := RouteOf(part, key);
    assert part[j] == recs[lo + j] && (j + 1 < |part| ==> part[j + 1] == recs[lo + j + 1]);
    RouteOfIs(recs, key, lo + j);
  }

  /** The keys above the part go to its last child. */
  lemma {:induction false} PartLast(recs: seq<Rec>, lo: nat, hi: nat, key: int)
    requires Ascending(recs) && lo < hi <= |recs| && recs[hi - 1].key <= key
    ensures Part(recs, lo, hi)[0].key <= key && RightChild(Part(recs, lo, hi), key) == recs[hi - 1].block
  {
    var part := Part(recs, lo, hi);
    PartAscends(recs, lo, hi);
    assert lo < hi - 1 ==> recs[lo].key < recs[hi - 1].key;
    RouteOfIs(part, key, hi - lo - 1);
  }

  /** Five pages: page `4` is the former root, over the pages 2 and 1; page 3 has the records that a split page handed
      up, and the new root has it beside the former one. The records are `all`; page 1 starts at `t`, and page 3 at
      `k`. A split page has its last record left over, and the third slot of the root is one of the records. */
  ghost predicate FivePages(file: seq<DirPage>, all: seq<Rec>, t: nat, k: nat) {
    && Ascending(all) && Distinct(all) && 0 < t < |all| && 0 < k < |all| && t != k && |file| == 5
    && file[0].level == 2 && file[0].count == 2 < |file[0].slots| && file[0].slots[2] in all
    && file[0].slots[0] == Rec(all[0].key, 4, 0) && file[0].slots[1] == Rec(all[k].key, 3, 0)
    && file[4].level == 1 && Leftover(file[4], [Rec(all[0].key, 2, 0), Rec(all[t].key, 1, 0)], DefaultRec)
    && file[1].level == 0 && file[2].level == 0 && file[3].level == 0
    && if k < t then
         Leftover(file[2], Part(all, 0, k), all[t - 1]) && Leftover(file[3], Part(all, k, t), DefaultRec) &&
         Leftover(file[1], Part(all, t, |all|), DefaultRec)
       else
         Leftover(file[2], Part(all, 0, t), DefaultRec) && Leftover(file[1], Part(all, t, k), all[|all| - 1]) &&
         Leftover(file[3], Part(all, k, |all|), DefaultRec)
  }

  // ---- which pages a search goes through ----

  /** The new root: the leftover key's leaf, or page 3 from the split key on, or the former root. */
  lemma {:induction false} FromRoot(file: seq<DirPage>, all: seq<Rec>, t: nat, k: nat, key: int)
    requires FivePages(file, all, t, k) && all[0].key <= key
    ensures var s := file[0].slots[2];
            var c := if all[k].key < key == s.key then s.block else if key < all[k].key then 4 else 3;
            (Path(file, 0, key) <==> 0 < c < 5 && Path(file, c, key)) &&
            (Path(file, 0, key) ==> SearchResult(file, 0, key) == SearchResult(file, c, key))
  {
    assert all[0].key < all[k].key;
    TwoEntries(file[0], key);
    hide FoundChild, Leftover, Ascending, Distinct;
    UpperPage(file, 0, key);
    assert file[0].Recs()[RouteOf(file[0].Recs(), key)].block == RightChild(file[0].Recs(), key);
  }

  /** The former root: to page 2 or 1, or back to the root for the key 0 above its two separators. */
  lemma {:induction false} FromFormer(file: seq<DirPage>, all: seq<Rec>, t: nat, k: nat, key: int)
    requires FivePages(file, all, t, k) && all[0].key <= key
    ensures var c := if key < all[t].key then 2 else 1;
            (Path(file, 4, key) <==> !(all[t].key < key == 0)) && Path(file, c, key) &&
            (Path(file, 4, key) ==> SearchResult(file, 4, key) == SearchResult(file, c, key)) &&
            (all[t].key < key == 0 ==> FoundChild(file[4], key) == 0)
    ensures PageReady(file[4]) && file[4].slots[0].key <= key
  {
    var c := if key < all[t].key then 2 else 1;
    assert all[0].key < all[t].key;
    var recs := [Rec(all[0].key, 2, 0), Rec(all[t].key, 1, 0)];
    assert recs[1].key == all[t].key && Ascending(recs);
    LeftoverFinds(file[4], recs, DefaultRec, key);
    RouteOfIs(recs, key, if key < all[t].key then 0 else 1);
    BelowFormer(file, all, t, k, key);
    hide FoundChild, Leftover, Ascending, Distinct, PageReady;
    UpperPage(file, 4, key);
  }

  lemma {:induction false} BelowFormer(file: seq<DirPage>, all: seq<Rec>, t: nat, k: nat, key: int)
    requires FivePages(file, all, t, k) && all[0].key <= key
    ensures Path(file, if key < all[t].key then 2 else 1, key)
  {
    var hi2, hi1 := if k < t then k else t, if k < t then |all| else k;
    PartAscends(all, 0, hi2);
    PartAscends(all, t, hi1);
    if key < all[t].key {
      LeafPage(file, 2, Part(all, 0, hi2), if k < t then all[t - 1] else DefaultRec, key);
    } else {
      LeafPage(file, 1, Part(all, t, hi1), if k < t then DefaultRec else all[|all| - 1], key);
    }
  }

  // ---- what the pages at level 0 answer ----

  /** Only one record has the leaf where a key belongs. */
  lemma {:induction false} OnlyRight(all: seq<Rec>, key: int, i: nat)
    requires Ascending(all) && Distinct(all) && all != [] && all[0].key <= key && i < |all|
    ensures all[i].block == RightChild(all, key) <==> all[i].key <= key && (i + 1 < |all| ==> key < all[i + 1].key)
  {
    var j := RouteOf(all, key);
    assert i < j ==> all[i].block != all[j].block && all[i + 1].key <= all[j].key;
    assert j < i ==> all[j].block != all[i].block && all[j + 1].key <= all[i].key;
  }

  /** A page with no leftover but never-used slots, for the keys that belong there. */
  lemma {:induction false} PartAnswers(all: seq<Rec>, lo: nat, hi: nat, key: int)
    requires Ascending(all) && Distinct(all) && lo < hi <= |all|
    requires all[lo].key <= key && (hi < |all| ==> key < all[hi].key)
    ensures all[0].key <= key && Part(all, lo, hi)[0].key <= key
    ensures ChildAt(Part(all, lo, hi), DefaultRec, key) == RightChild(all, key) <==> !Zeroed(Part(all, lo, hi), key)
  {
    PartAscends(all, lo, hi);
    PartRoutes(all, lo, hi, key);
    LastRoute(Part(all, lo, hi), key);
  }

  /** The same page, for keys above those that belong there: a wrong leaf. */
  lemma {:induction false} PartMisses(all: seq<Rec>, lo: nat, hi: nat, key: int)
    requires Ascending(all) && Distinct(all) && lo < hi < |all| && all[hi].key <= key
    ensures all[0].key <= key && Part(all, lo, hi)[0].key <= key
    ensures all[0].block == 0 || RightChild(all, key) != 0 ==>
              ChildAt(Part(all, lo, hi), DefaultRec, key) != RightChild(all, key)
  {
    assert all[0].key < all[hi].key && all[hi - 1].key < all[hi].key;
    PartAscends(all, lo, hi);
    PartLast(all, lo, hi, key);
    OnlyRight(all, key, hi - 1);
    OnlyRight(all, key, 0);
    assert hi > 1 ==> all[1].key <= all[hi].key;
  }

  /** A split page, with its last record left over behind the others. */
  lemma {:induction false} SplitAnswers(all: seq<Rec>, lo: nat, hi: nat, last: nat, key: int)
    requires Ascending(all) && Distinct(all) && lo < hi <= last < |all| && all[lo].key <= key
    ensures all[0].key <= key && Part(all, lo, hi)[0].key <= key
    ensures ChildAt(Part(all, lo, hi), all[last], key) == RightChild(all, key) <==> key < all[hi].key || key == all[last].key
  {
    PartAscends(all, lo, hi);
    assert lo > 0 ==> all[0].key < all[lo].key;
    assert all[hi - 1].key < all[last].key && (hi < last ==> all[hi].key < all[last].key);
    if key == all[last].key {
      assert last + 1 < |all| ==> all[last].key < all[last + 1].key;
      OnlyRight(all, key, last);
    } else if key < all[hi].key {
      PartRoutes(all, lo, hi, key);
    } else {
      assert all[hi - 1].key < all[hi].key;
      PartLast(all, lo, hi, key);
      OnlyRight(all, key, hi - 1);
    }
  }

  /** The search ends at the leaf where the key belongs. */
  ghost predicate Right(file: seq<DirPage>, b: nat, all: seq<Rec>, key: int)
    requires all != [] && all[0].key <= key
  {
    Path(file, b, key) && SearchResult(file, b, key) == RightChild(all, key)
  }

  lemma {:induction false} PageOne(file: seq<DirPage>, all: seq<Rec>, t: nat, k: nat, key: int)
    requires FivePages(file, all, t, k)
    ensures var part := Part(all, t, if k < t then |all| else k);
            part[0] == all[t] && (Path(file, 1, key) <==> all[t].key <= key) &&
            (all[t].key <= key ==>
               SearchResult(file, 1, key) == ChildAt(part, if k < t then DefaultRec else all[|all| - 1], key))
  {
    var hi := if k < t then |all| else k;
    PartAscends(all, t, hi);
    LeafPage(file, 1, Part(all, t, hi), if k < t then DefaultRec else all[|all| - 1], key);
  }

  lemma {:induction false} FromOne(file: seq<DirPage>, all: seq<Rec>, t: nat, k: nat, key: int)
    requires FivePages(file, all, t, k) && all[0].key <= key
    ensures Right(file, 1, all, key) <==>
            all[t].key <= key &&
            if k < t then !Zeroed(Part(all, t, |all|), key) else key < all[k].key || key == all[|all| - 1].key
  {
    PageOne(file, all, t, k, key);
    hide Leftover, Ascending, Distinct, Zeroed, ChildAt, Part, Path;
    if all[t].key <= key {
      if k < t {
        PartAnswers(all, t, |all|, key);
      } else {
        SplitAnswers(all, t, k, |all| - 1, key);
      }
    }
  }

  lemma {:induction false} FromTwo(file: seq<DirPage>, all: seq<Rec>, t: nat, k: nat, key: int)
    requires FivePages(file, all, t, k) && all[0].key <= key
    requires k < t || key < all[t].key || RightChild(all, key) != 0
    ensures Right(file, 2, all, key) <==>
            if k < t then key < all[k].key || key == all[t - 1].key
            else key < all[t].key && !Zeroed(Part(all, 0, t), key)
  {
    var hi := if k < t then k else t;
    PartAscends(all, 0, hi);
    LeafPage(file, 2, Part(all, 0, hi), if k < t then all[t - 1] else DefaultRec, key);
    hide FivePages, Leftover, Ascending, Distinct, Zeroed;
    if k < t {
      SplitAnswers(all, 0, k, t - 1, key);
    } else if key < all[t].key {
      PartAnswers(all, 0, t, key);
    } else {
      PartMisses(all, 0, t, key);
    }
  }

  lemma {:induction false} FromThree(file: seq<DirPage>, all: seq<Rec>, t: nat, k: nat, key: int)
    requires FivePages(file, all, t, k) && all[0].key <= key && (k < t ==> all[0].block == 0)
    ensures Right(file, 3, all, key) <==>
            all[k].key <= key &&
            if k < t then key < all[t].key && !Zeroed(Part(all, k, t), key) else !Zeroed(Part(all, k, |all|), key)
  {
    var hi := if k < t then t else |all|;
    PartAscends(all, k, hi);
    LeafPage(file, 3, Part(all, k, hi), DefaultRec, key);
    hide FivePages, Leftover, Ascending, Distinct, Zeroed;
    if all[k].key <= key {
      if k < t && all[t].key <= key {
        PartMisses(all, k, t, key);
      } else {
        PartAnswers(all, k, hi, key);
      }
    }
  }

  lemma {:induction false} FromFour(file: seq<DirPage>, all: seq<Rec>, t: nat, k: nat, key: int)
    requires FivePages(file, all, t, k) && all[0].key <= key
    ensures Right(file, 4, all, key) <==>
            if key < all[t].key then
              if k < t then key < all[k].key || key == all[t - 1].key else !Zeroed(Part(all, 0, t), key)
            else !(all[t].key < key == 0) &&
                 (if k < t then !Zeroed(Part(all, t, |all|), key) else key < all[k].key || key == all[|all| - 1].key)
  {
    FromFormer(file, all, t, k, key);
    if key < all[t].key {
      FromTwo(file, all, t, k, key);
    } else {
      FromOne(file, all, t, k, key);
    }
  }

  // ---- exactly which searches are right ----

  /** The key is that of the new root's third slot, and above the split key: the slot's leaf is taken for a page. */
  predicate ThirdHit(all: seq<Rec>, k: nat, s: Rec, key: int)
    requires k < |all|
  {
    all[k].key < key == s.key
  }

  /** After a split of the lower page, the keys of the upper page are lost. */
  predicate LowerRight(all: seq<Rec>, t: nat, k: nat, s: Rec, key: int)
    requires 0 < k < t < |all|
  {
    if ThirdHit(all, k, s, key) then
      || (s.block == 1 && all[t].key <= key)
      || (s.block == 2 && s == all[t - 1])
      || (s.block == 3 && key < all[t].key)
      || (s.block == 4 && (s == all[t - 1] || (all[t].key <= key && !(all[t].key < 0 == key))))
    else key < all[t].key && !(all[k].key <= key && Zeroed(Part(all, k, t), key))
  }

  /** After a split of the upper page, all keys are found but for the default key 0 and the third slot's key. */
  predicate UpperRight(all: seq<Rec>, t: nat, k: nat, s: Rec, key: int)
    requires 0 < t < k < |all|
  {
    if ThirdHit(all, k, s, key) then
      s.block == 3 || (s == all[|all| - 1] && (s.block == 1 || (s.block == 4 && key != 0)))
    else if key < all[t].key then !Zeroed(Part(all, 0, t), key)
    else if key < all[k].key then !(all[t].key < key == 0)
    else !Zeroed(Part(all, k, |all|), key)
  }

  /** The third slot's key belongs to the third slot's leaf. */
  lemma {:induction false} ThirdBelongs(all: seq<Rec>, s: Rec, key: int) returns (j: nat)
    requires Ascending(all) && Distinct(all) && s in all && key == s.key
    ensures j < |all| && all[j] == s && all[0].key <= key && RightChild(all, key) == s.block
    ensures forall i :: 0 <= i < |all| && all[i].key == key ==> all[i] == s
  {
    j :| 0 <= j < |all| && all[j] == s;
    assert j > 0 ==> all[0].key < all[j].key;
    RouteOfIs(all, key, j);
  }

  /** A search goes on from a page below the root. */
  lemma {:induction false} FromBelow(file: seq<DirPage>, all: seq<Rec>, t: nat, k: nat, key: int) returns (c: int)
    requires FivePages(file, all, t, k) && all[0].key <= key
    ensures var s := file[0].slots[2];
            c == if ThirdHit(all, k, s, key) then s.block else if key < all[k].key then 4 else 3
    ensures Finds(file, key, RightChild(all, key)) <==> 0 < c < 5 && Right(file, c, all, key)
  {
    FromRoot(file, all, t, k, key);
    var s := file[0].slots[2];
    c := if ThirdHit(all, k, s, key) then s.block else if key < all[k].key then 4 else 3;
    hide FivePages, Path, SearchResult;
  }

  lemma {:induction false} LowerIff(file: seq<DirPage>, all: seq<Rec>, t: nat, k: nat, key: int)
    requires FivePages(file, all, t, k) && k < t && all[0].key <= key && all[0].block == 0
    ensures Finds(file, key, RightChild(all, key)) <==> LowerRight(all, t, k, file[0].slots[2], key)
  {
    var s := file[0].slots[2];
    var c := FromBelow(file, all, t, k, key);
    assert all[k].key < all[t].key;
    FromOne(file, all, t, k, key);
    FromTwo(file, all, t, k, key);
    FromThree(file, all, t, k, key);
    FromFour(file, all, t, k, key);
    if ThirdHit(all, k, s, key) {
      var j := ThirdBelongs(all, s, key);
      ThirdInside(all, t, k, j, key);
    }
    hide FivePages, Right, Part, Zeroed;
  }

  /** No page is exhausted by a key that is one of its own. */
  lemma {:induction false} ThirdInside(all: seq<Rec>, t: nat, k: nat, j: nat, key: int)
    requires Ascending(all) && 0 < k && 0 < t && k < |all| && t < |all| && j < |all| && key == all[j].key
    ensures k < t && key < all[t].key && all[k].key <= key ==> !Zeroed(Part(all, k, t), key)
    ensures all[k].key <= key && t < k ==> !Zeroed(Part(all, k, |all|), key)
    ensures all[t].key <= key && k < t ==> !Zeroed(Part(all, t, |all|), key)
  {
    assert forall i :: 0 <= i < j ==> all[i].key < all[j].key;
    assert forall i :: j < i < |all| ==> all[j].key < all[i].key;
    assert Part(all, t, |all|)[|all| - t - 1] == all[|all| - 1];
    assert Part(all, k, |all|)[|all| - k - 1] == all[|all| - 1];
    if k < t {
      assert Part(all, k, t)[t - k - 1] == all[t - 1];
    }
  }

  lemma {:induction false} UpperIff(file: seq<DirPage>, all: seq<Rec>, t: nat, k: nat, key: int)
    requires FivePages(file, all, t, k) && t < k && all[0].key <= key
    ensures Finds(file, key, RightChild(all, key)) <==> UpperRight(all, t, k, file[0].slots[2], key)
  {
    var s := file[0].slots[2];
    var c := FromBelow(file, all, t, k, key);
    assert all[t].key < all[k].key;
    FromOne(file, all, t, k, key);
    FromThree(file, all, t, k, key);
    FromFour(file, all, t, k, key);
    if ThirdHit(all, k, s, key) {
      var j := ThirdBelongs(all, s, key);
      ThirdInside(all, t, k, j, key);
      if c == 2 {
        FromTwo(file, all, t, k, key);
      }
    }
    hide FivePages, Right, Part, Zeroed;
  }

  // ---- an entry that is handed up past the root ----

  /** The new root after an entry was handed up to a root of two entries. */
  lemma {:induction false} HandedRoot(file: seq<DirPage>, split: Rec)
    requires |file| == 4 && file[0].level == 1 && file[0].count == 2 < |file[0].slots|
    requires file[0].slots[0].key < split.key
    ensures 0 < file[0].count < |file[0].slots| && |file[0].slots| >= 3
    ensures var file' := MakeNewRoot(file, 0, split);
            |file'| == 5 && file'[1] == file[1] && file'[2] == file[2] && file'[3] == file[3] &&
            file'[0].level == 2 && file'[0].count == 2 < |file'[0].slots| &&
            file'[0].slots[0] == Rec(file[0].slots[0].key, 4, 0) && file'[0].slots[1] == split &&
            file'[0].slots[2] == file[0].slots[2] &&
            file'[4].level == 1 && Leftover(file'[4], [file[0].slots[0], file[0].slots[1]], DefaultRec)
  {
    NewRootIs(file, 0, split);
    assert Emptied(file[0], 0).slots[2] == file[0].slots[2];
    assert file[0].Recs()[0..] == [file[0].slots[0], file[0].slots[1]];
  }

  /** The lower half of a split page, and its new upper half. */
  lemma {:induction false} SplitLeftover(p: DirPage, mid: nat)
    requires p.level == 0 && p.Fits() && 0 < mid < p.count
    ensures Emptied(p, mid).level == 0 && Leftover(Emptied(p, mid), p.Recs()[..mid], p.Recs()[p.count - 1])
    ensures var upper := FreshPage(0, p.Recs()[mid..], |p.slots|);
            upper.level == 0 && Leftover(upper, p.Recs()[mid..], DefaultRec)
  {
  }

  lemma {:induction false} WholeLeftover(p: DirPage, recs: seq<Rec>, full: nat)
    requires PageHas(p, recs, full)
    ensures p.level == 0 && Leftover(p, recs, DefaultRec)
  {
  }

  /** The first record of the upper page, among all with the new one. */
  function TopAt(recs: seq<Rec>, m: nat, e: Rec): nat
    requires m < |recs|
  {
    if e.key < recs[m].key then m + 1 else m
  }

  /** The lower page is filled by the entry. */
  lemma {:induction false} LowerFilled(p: DirPage, recs: seq<Rec>, m: nat, e: Rec, full: nat)
    requires Ascending(recs) && Distinct(recs) && 0 < m < |recs| && NewEntry(recs, e) && e.key < recs[m].key
    requires PageHas(p, recs[..m], full) && p.count + 1 >= full
    ensures p.count < |p.slots| && m + 1 == full && m + 1 < |Added(recs, e)| && Added(recs, e)[m + 1] == recs[m]
    ensures var p' := WithSeparator(p, e);
            p'.Fits() && p'.level == 0 && p'.count == full && p'.Recs() == Part(Added(recs, e), 0, m + 1)
    ensures Part(Added(recs, e), m + 1, |Added(recs, e)|) == recs[m..]
  {
    AddedBelow(recs, m, e);
    Put(p, e);
    assert Added(recs, e)[m + 1] == Added(recs, e)[m + 1..][0];
  }

  /** The upper page is filled by the entry. */
  lemma {:induction false} UpperFilled(p: DirPage, recs: seq<Rec>, m: nat, e: Rec, full: nat)
    requires Ascending(recs) && Distinct(recs) && 0 < m < |recs| && NewEntry(recs, e) && recs[m].key < e.key
    requires PageHas(p, recs[m..], full) && p.count + 1 >= full
    ensures p.count < |p.slots| && |recs| - m + 1 == full && Added(recs, e)[m].key == recs[m].key
    ensures var p' := WithSeparator(p, e);
            p'.Fits() && p'.level == 0 && p'.count == full && p'.Recs() == Part(Added(recs, e), m, |recs| + 1)
    ensures Part(Added(recs, e), 0, m) == recs[..m]
  {
    AddedAbove(recs, m, e);
    Put(p, e);
    AddedOk(recs[m..], e);
    assert Added(recs, e)[m] == Added(recs, e)[m..][0];
  }

  /** The split page hands its upper half's first key up to the root. */
  lemma {:induction false} ChildSplits(file: seq<DirPage>, recs: seq<Rec>, m: nat, e: Rec, full: nat)
    requires Holding(file, recs, m, full) && m > 0 && NewEntry(recs, e)
    requires var c := PageFor(file, e.key);
             file[c].count < |file[c].slots| && WithSeparator(file[c], e).Fits() && WithSeparator(file[c], e).count == full
    ensures Path(file, 0, e.key)
    ensures var c := PageFor(file, e.key);
            var p := WithSeparator(file[c], e);
            DirInsert(file, 0, e, full) ==
            (SplitPages(file[c := p], c, full / 2), Some(Entry(p.slots[full / 2].key, 3)))
  {
    ChildOf(file, recs, m, e.key, full);
    TwoSearch(file, recs, m, full, e.key);
    hide FoundChild, WithSeparator, Added, Ascending, Distinct, Clean, SearchResult, SplitPages, PageHas;
    assert DirInsert(file, 0, e, full) == InsertEntry(file, PageFor(file, e.key), e, full);
  }

  lemma {:induction false} SplitFile(file: seq<DirPage>, c: nat, p: DirPage, mid: nat)
    requires |file| == 3 && 1 <= c <= 2 && p.level == 0 && p.Fits() && 0 < mid < p.count
    ensures var file1 := SplitPages(file[c := p], c, mid);
            |file1| == 4 && file1[0] == file[0] && file1[3 - c] == file[3 - c] && file1[c] == Emptied(p, mid) &&
            file1[3] == FreshPage(0, p.Recs()[mid..], |p.slots|)
  {
  }

  /** A root over two pages, of which one has just been filled. */
  ghost predicate Filled(file: seq<DirPage>, all: seq<Rec>, t: nat, c: nat, p: DirPage) {
    && Ascending(all) && Distinct(all) && 0 < t < |all| && |file| == 3 && 1 <= c <= 2 && p.level == 0 && p.Fits()
    && file[0].level == 1 && file[0].count == 2 < |file[0].slots| && file[0].slots[2] in all
    && file[0].slots[0] == Rec(all[0].key, 2, 0) && file[0].slots[1] == Rec(all[t].key, 1, 0)
    && file[3 - c].level == 0
  }

  /** From the pages after the split to the five pages. */
  lemma {:induction false} LowerFive(file: seq<DirPage>, p: DirPage, mid: nat, all: seq<Rec>, t: nat)
    requires Filled(file, all, t, 2, p) && 0 < mid < p.count && p.Recs() == Part(all, 0, t)
    requires Leftover(file[1], Part(all, t, |all|), DefaultRec)
    ensures var file1 := SplitPages(file[2 := p], 2, mid);
            file1 != [] && 0 < file1[0].count < |file1[0].slots| && |file1[0].slots| >= 3 &&
            FivePages(MakeNewRoot(file1, 0, Rec(p.slots[mid].key, 3, 0)), all, t, mid) &&
            MakeNewRoot(file1, 0, Rec(p.slots[mid].key, 3, 0))[0].slots[2] == file[0].slots[2]
  {
    SplitFile(file, 2, p, mid);
    SplitLeftover(p, mid);
    PartSplit(all, t, mid, true);
    assert p.slots[mid] == p.Recs()[mid] == all[mid] && all[0].key < all[mid].key;
    var file1 := SplitPages(file[2 := p], 2, mid);
    hide SplitPages, Emptied, FreshPage, Ascending, Distinct, Leftover, MakeNewRoot, FivePages, Part;
    HandedRoot(file1, Rec(p.slots[mid].key, 3, 0));
    Assembled(MakeNewRoot(file1, 0, Rec(p.slots[mid].key, 3, 0)), all, t, mid);
  }

  lemma {:induction false} UpperFive(file: seq<DirPage>, p: DirPage, mid: nat, all: seq<Rec>, t: nat, k: nat)
    requires Filled(file, all, t, 1, p) && 0 < mid < p.count && p.Recs() == Part(all, t, |all|) && k == t + mid
    requires Leftover(file[2], Part(all, 0, t), DefaultRec)
    ensures var file1 := SplitPages(file[1 := p], 1, mid);
            file1 != [] && 0 < file1[0].count < |file1[0].slots| && |file1[0].slots| >= 3 &&
            FivePages(MakeNewRoot(file1, 0, Rec(p.slots[mid].key, 3, 0)), all, t, k) &&
            MakeNewRoot(file1, 0, Rec(p.slots[mid].key, 3, 0))[0].slots[2] == file[0].slots[2]
  {
    SplitFile(file, 1, p, mid);
    SplitLeftover(p, mid);
    PartSplit(all, t, k, false);
    assert p.slots[mid] == p.Recs()[mid] == all[k] && all[0].key < all[k].key;
    assert Emptied(p, mid).level == 0 && p.Recs()[p.count - 1] == all[|all| - 1];
    var file1 := SplitPages(file[1 := p], 1, mid);
    hide SplitPages, Emptied, FreshPage, Ascending, Distinct, Leftover, MakeNewRoot, FivePages, Part;
    HandedRoot(file1, Rec(p.slots[mid].key, 3, 0));
    Assembled(MakeNewRoot(file1, 0, Rec(p.slots[mid].key, 3, 0)), all, t, k);
  }

  lemma {:induction false} Assembled(file: seq<DirPage>, all: seq<Rec>, t: nat, k: nat)
    requires Ascending(all) && Distinct(all) && 0 < t < |all| && 0 < k < |all| && |file| == 5
    requires file[0].level == 2 && file[0].count == 2 < |file[0].slots| && file[0].slots[2] in all
    requires file[0].slots[0] == Rec(all[0].key, 4, 0) && file[0].slots[1] == Rec(all[k].key, 3, 0)
    requires file[4].level == 1 && Leftover(file[4], [Rec(all[0].key, 2, 0), Rec(all[t].key, 1, 0)], DefaultRec)
    requires file[1].level == 0 && file[2].level == 0 && file[3].level == 0 && t != k
    requires k < t ==>
               Leftover(file[2], Part(all, 0, k), all[t - 1]) && Leftover(file[3], Part(all, k, t), DefaultRec) &&
               Leftover(file[1], Part(all, t, |all|), DefaultRec)
    requires t < k ==>
               Leftover(file[2], Part(all, 0, t), DefaultRec) && Leftover(file[1], Part(all, t, k), all[|all| - 1]) &&
               Leftover(file[3], Part(all, k, |all|), DefaultRec)
    ensures FivePages(file, all, t, k)
  {
  }

  lemma {:induction false} PartSplit(all: seq<Rec>, t: nat, k: nat, lower: bool)
    requires 0 < t < |all| && 0 < k < |all| && if lower then k < t else t < k
    ensures if lower then
              Part(all, 0, t)[..k] == Part(all, 0, k) && Part(all, 0, t)[k..] == Part(all, k, t) &&
              Part(all, 0, t)[t - 1] == all[t - 1] && Part(all, 0, t)[k] == all[k]
            else
              Part(all, t, |all|)[..k - t] == Part(all, t, k) && Part(all, t, |all|)[k - t..] == Part(all, k, |all|) &&
              Part(all, t, |all|)[|all| - t - 1] == all[|all| - 1] && Part(all, t, |all|)[k - t] == all[k]
  {
  }

  /** The root's three slots with the new entry among the records. */
  lemma {:induction false} RootStands(file: seq<DirPage>, recs: seq<Rec>, m: nat, e: Rec, full: nat)
    requires Holding(file, recs, m, full) && m > 0 && NewEntry(recs, e)
    ensures recs[0].key < recs[m].key != e.key
    ensures var all, t := Added(recs, e), TopAt(recs, m, e);
            Ascending(all) && Distinct(all) && 0 < t < |all| && all[t].key == recs[m].key && all[0] == recs[0] &&
            file[0].slots[2] in all
  {
    AddedOk(recs, e);
    assert recs[m] in recs;
    ThirdStays(recs, e, file[0].slots[2]);
    if e.key < recs[m].key {
      AddedBelow(recs, m, e);
      assert Added(recs, e)[m + 1] == Added(recs, e)[m + 1..][0];
    } else {
      AddedAbove(recs, m, e);
      AddedOk(recs[m..], e);
      assert Added(recs, e)[m] == Added(recs, e)[m..][0];
    }
  }

  lemma {:induction false} LowerReady(file: seq<DirPage>, recs: seq<Rec>, m: nat, e: Rec, full: nat)
    requires Holding(file, recs, m, full) && m > 0 && NewEntry(recs, e) && !HasRoom(file, e.key, full)
    requires e.key < recs[m].key
    ensures 3 <= full == m + 1 < |Added(recs, e)| && |file| == 3 && PageFor(file, e.key) == 2
    ensures |file[0].slots| > 2 && Added(recs, e)[0] == recs[0]
    ensures file[2].count < |file[2].slots| && WithSeparator(file[2], e).Fits()
    ensures full <= |WithSeparator(file[2], e).slots|
    ensures var p := WithSeparator(file[2], e);
            Filled(file, Added(recs, e), m + 1, 2, p) && p.count == full && p.Recs() == Part(Added(recs, e), 0, m + 1)
    ensures Leftover(file[1], Part(Added(recs, e), m + 1, |Added(recs, e)|), DefaultRec)
  {
    RootStands(file, recs, m, e, full);
    hide Ascending, Distinct, Clean, Added, WithSeparator, NewEntry, Leftover, Part;
    LowerFilled(file[2], recs, m, e, full);
    WholeLeftover(file[1], recs[m..], full);
  }

  lemma {:induction false} UpperReady(file: seq<DirPage>, recs: seq<Rec>, m: nat, e: Rec, full: nat)
    requires Holding(file, recs, m, full) && m > 0 && NewEntry(recs, e) && !HasRoom(file, e.key, full)
    requires recs[m].key < e.key
    ensures 3 <= full == |recs| - m + 1 && |Added(recs, e)| == |recs| + 1 && |file| == 3 && PageFor(file, e.key) == 1
    ensures |file[0].slots| > 2 && Added(recs, e)[0] == recs[0]
    ensures file[1].count < |file[1].slots| && WithSeparator(file[1], e).Fits()
    ensures full <= |WithSeparator(file[1], e).slots|
    ensures var p := WithSeparator(file[1], e);
            Filled(file, Added(recs, e), m, 1, p) && p.count == full && p.Recs() == Part(Added(recs, e), m, |recs| + 1)
    ensures Leftover(file[2], Part(Added(recs, e), 0, m), DefaultRec)
  {
    RootStands(file, recs, m, e, full);
    hide Ascending, Distinct, Clean, Added, WithSeparator, NewEntry, Leftover, Part;
    UpperFilled(file[1], recs, m, e, full);
    WholeLeftover(file[2], recs[..m], full);
  }

  /** An entry that fills the lower page leaves the five pages. */
  lemma {:induction false} FiveAfterLower(file: seq<DirPage>, recs: seq<Rec>, m: nat, e: Rec, full: nat)
    requires Holding(file, recs, m, full) && m > 0 && NewEntry(recs, e) && !HasRoom(file, e.key, full)
    requires e.key < recs[m].key
    ensures Takes(file, e, full) && full == m + 1 < |Added(recs, e)| && Added(recs, e)[0] == recs[0]
    ensures file != [] && |file[0].slots| > 2 && 0 < full / 2 < m + 1
    ensures FivePages(IndexEntry(file, e, full), Added(recs, e), m + 1, full / 2)
    ensures IndexEntry(file, e, full)[0].slots[2] == file[0].slots[2]
  {
    hide *;
    LowerReady(file, recs, m, e, full);
    ChildSplits(file, recs, m, e, full);
    var p := WithSeparator(file[2], e);
    LowerFive(file, p, full / 2, Added(recs, e), m + 1);
    EntryIs(file, e, full, SplitPages(file[2 := p], 2, full / 2), Entry(p.slots[full / 2].key, 3));
  }

  /** An entry that fills the upper page leaves the five pages. */
  lemma {:induction false} FiveAfterUpper(file: seq<DirPage>, recs: seq<Rec>, m: nat, e: Rec, full: nat)
    requires Holding(file, recs, m, full) && m > 0 && NewEntry(recs, e) && !HasRoom(file, e.key, full)
    requires recs[m].key < e.key
    ensures Takes(file, e, full) && m + full / 2 < |Added(recs, e)| && |recs| - m + 1 == full
    ensures file != [] && |file[0].slots| > 2 && 0 < full / 2 && Added(recs, e)[0] == recs[0]
    ensures FivePages(IndexEntry(file, e, full), Added(recs, e), m, m + full / 2)
    ensures IndexEntry(file, e, full)[0].slots[2] == file[0].slots[2]
  {
    hide *;
    UpperReady(file, recs, m, e, full);
    ChildSplits(file, recs, m, e, full);
    var p := WithSeparator(file[1], e);
    UpperFive(file, p, full / 2, Added(recs, e), m, m + full / 2);
    EntryIs(file, e, full, SplitPages(file[1 := p], 1, full / 2), Entry(p.slots[full / 2].key, 3));
  }

  lemma {:induction false} EntryIs(file: seq<DirPage>, e: Rec, full: nat, pages: seq<DirPage>, split: Entry)
    requires Path(file, 0, e.key) && DirInsert(file, 0, e, full) == (pages, Some(split))
    requires pages != [] && 0 < pages[0].count < |pages[0].slots| && |pages[0].slots| >= 3
    ensures Takes(file, e, full) && IndexEntry(file, e, full) == MakeNewRoot(pages, 0, Rec(split.key, split.block, 0))
  {
    hide DirInsert, MakeNewRoot, Path;
  }

  lemma {:induction false} ThirdStays(recs: seq<Rec>, e: Rec, s: Rec)
    requires s in recs
    ensures s in Added(recs, e)
  {
    var i := SlotBefore(recs, e.key) + 1;
    InsertedAt(recs, i, e);
    var j :| 0 <= j < |recs| && recs[j] == s;
    assert Added(recs, e)[if j < i then j else j + 1] == s;
  }

  // ---- main results ----

  /** After the lower page has split, exactly these searches end at the leaf where their key belongs. */
  lemma {:induction false} LowerSplitIff(file: seq<DirPage>, recs: seq<Rec>, m: nat, e: Rec, full: nat, key: int)
    requires Holding(file, recs, m, full) && m > 0 && NewEntry(recs, e) && !HasRoom(file, e.key, full)
    requires e.key < recs[m].key && recs[0].key <= key && recs[0].block == 0
    ensures Takes(file, e, full) && full == m + 1 < |Added(recs, e)| && Added(recs, e)[0].key <= key
    ensures Finds(IndexEntry(file, e, full), key, RightChild(Added(recs, e), key)) <==>
            LowerRight(Added(recs, e), m + 1, full / 2, file[0].slots[2], key)
  {
    hide *;
    FiveAfterLower(file, recs, m, e, full);
    LowerIff(IndexEntry(file, e, full), Added(recs, e), m + 1, full / 2, key);
  }

  /** After the upper page has split, exactly these searches end at the leaf where their key belongs. */
  lemma {:induction false} UpperSplitIff(file: seq<DirPage>, recs: seq<Rec>, m: nat, e: Rec, full: nat, key: int)
    requires Holding(file, recs, m, full) && m > 0 && NewEntry(recs, e) && !HasRoom(file, e.key, full)
    requires recs[m].key < e.key && recs[0].key <= key
    ensures Takes(file, e, full) && m + full / 2 < |Added(recs, e)| && Added(recs, e)[0].key <= key
    ensures Finds(IndexEntry(file, e, full), key, RightChild(Added(recs, e), key)) <==>
            UpperRight(Added(recs, e), m, m + full / 2, file[0].slots[2], key)
  {
    hide *;
    FiveAfterUpper(file, recs, m, e, full);
    UpperIff(IndexEntry(file, e, full), Added(recs, e), m, m + full / 2, key);
  }

  /** What a search needs after an entry was inserted, whatever page it fills. */
  ghost predicate Reached(file: seq<DirPage>, recs: seq<Rec>, m: nat, e: Rec, full: nat, key: int)
    requires Holding(file, recs, m, full) && Takes(file, e, full)
  {
    var all, up := Added(recs, e), m + full / 2;
    if HasRoom(file, e.key, full) then !Astray(IndexEntry(file, e, full), key)
    else if e.key < recs[m].key then 0 < full / 2 < m + 1 < |all| && LowerRight(all, m + 1, full / 2, file[0].slots[2], key)
    else 0 < m < up < |all| && UpperRight(all, m, up, file[0].slots[2], key)
  }

  /** An insertion into a directory of one page or of a root over two, with all splits, new roots and handed-up entries
      that it brings: exactly which searches send the keys from the new separator up to the next one to the new leaf,
      and all other keys where they belonged before. */
  lemma {:induction false} InsertSearchIff(file: seq<DirPage>, recs: seq<Rec>, m: nat, e: Rec, full: nat, key: int)
    requires Holding(file, recs, m, full) && NewEntry(recs, e) && recs[0].key <= key && recs[0].block == 0
    ensures Takes(file, e, full)
    ensures Finds(IndexEntry(file, e, full), key, if Moves(recs, e, key) then e.block else RightChild(recs, key)) <==>
            Reached(file, recs, m, e, full, key)
  {
    MovedRoutes(recs, e, key);
    if HasRoom(file, e.key, full) {
      StepSearchIff(file, recs, m, e, full, key);
    } else {
      RootStands(file, recs, m, e, full);
      hide Takes, Finds, IndexEntry, LowerRight, UpperRight, RightChild, Moves, Added, NewEntry;
      if e.key < recs[m].key {
        LowerSplitIff(file, recs, m, e, full, key);
      } else {
        UpperSplitIff(file, recs, m, e, full, key);
      }
    }
  }

  // ---- a search that never ends ----

  /** The loop of Search takes at least `n` turns from a page. */
  ghost predicate Descends(file: seq<DirPage>, b: int, key: int, n: nat)
    decreases n
  {
    n == 0 ||
    (0 <= b < |file| && PageReady(file[b]) && file[b].slots[0].key <= key && file[b].level > 0 &&
     Descends(file, FoundChild(file[b], key), key, n - 1))
  }

  ghost predicate Endless(file: seq<DirPage>, key: int) {
    forall n: nat :: Descends(file, 0, key, n)
  }

  /** The third slot's leaf 0 is taken for the root, or the former root's free slot names block 0 for the key 0. */
  predicate BackToRoot(all: seq<Rec>, t: nat, k: nat, s: Rec, key: int)
    requires t < |all| && k < |all|
  {
    if ThirdHit(all, k, s, key) then s.block == 0 || (s.block == 4 && all[t].key < 0 == key)
    else all[t].key < 0 == key < all[k].key
  }

  lemma {:induction false} RootTurns(file: seq<DirPage>, all: seq<Rec>, t: nat, k: nat, key: int) returns (c: int)
    requires FivePages(file, all, t, k) && all[0].key <= key
    ensures var s := file[0].slots[2];
            c == if ThirdHit(all, k, s, key) then s.block else if key < all[k].key then 4 else 3
    ensures forall n: nat :: n > 0 ==> (Descends(file, 0, key, n) <==> Descends(file, c, key, n - 1))
  {
    var s := file[0].slots[2];
    assert all[0].key < all[k].key;
    TwoEntries(file[0], key);
    c := FoundChild(file[0], key);
    assert file[0].Recs()[RouteOf(file[0].Recs(), key)].block == RightChild(file[0].Recs(), key);
    hide FoundChild, Leftover, Ascending, Distinct, PageReady;
  }

  lemma {:induction false} FormerTurns(file: seq<DirPage>, all: seq<Rec>, t: nat, k: nat, key: int)
    requires FivePages(file, all, t, k) && all[0].key <= key
    ensures all[t].key < key == 0 ==>
              forall n: nat :: n > 0 ==> (Descends(file, 4, key, n) <==> Descends(file, 0, key, n - 1))
    ensures !(all[t].key < key == 0) ==> !Descends(file, 4, key, 2)
  {
    FromFormer(file, all, t, k, key);
    hide Leftover, Ascending, Distinct, PageReady;
    if !(all[t].key < key == 0) {
      var c := FoundChild(file[4], key);
      assert c != 0 && Path(file, 4, key) && file[c].level == 0;
      assert !Descends(file, c, key, 1);
    }
  }

  /** Exactly when the loop of Search never ends. */
  lemma {:induction false} EndlessIff(file: seq<DirPage>, all: seq<Rec>, t: nat, k: nat, key: int)
    requires FivePages(file, all, t, k) && all[0].key <= key
    ensures t < |all| && k < |all| && |file[0].slots| > 2
    ensures Endless(file, key) <==> BackToRoot(all, t, k, file[0].slots[2], key)
  {
    assert t < |all| && k < |all| && |file| == 5 && |file[0].slots| > 2;
    hide FivePages, PageReady, FoundChild;
    var c := RootTurns(file, all, t, k, key);
    FormerTurns(file, all, t, k, key);
    if BackToRoot(all, t, k, file[0].slots[2], key) {
      forall n: nat ensures Descends(file, 0, key, n) {
        Turns(file, all, t, k, key, c, n);
      }
    } else {
      assert Descends(file, 0, key, 3) <==> Descends(file, c, key, 2);
      if c != 4 {
        Ends(file, all, t, k, key, c);
      }
    }
  }

  lemma {:induction false} Ends(file: seq<DirPage>, all: seq<Rec>, t: nat, k: nat, key: int, c: int)
    requires FivePages(file, all, t, k) && c != 0 && c != 4
    ensures !Descends(file, c, key, 2)
  {
    hide FoundChild, PageReady, Leftover;
  }

  lemma {:induction false} Turns(file: seq<DirPage>, all: seq<Rec>, t: nat, k: nat, key: int, c: int, n: nat)
    requires c == 0 || c == 4
    requires forall n: nat :: n > 0 ==> (Descends(file, 0, key, n) <==> Descends(file, c, key, n - 1))
    requires c == 4 ==> forall n: nat :: n > 0 ==> (Descends(file, 4, key, n) <==> Descends(file, 0, key, n - 1))
    ensures Descends(file, 0, key, n) && Descends(file, c, key, n)
  {
    if n > 0 {
      Turns(file, all, t, k, key, c, n - 1);
    }
  }

  /** A search that ends takes no more turns than the level it starts from. */
  lemma {:induction false} PathEnds(file: seq<DirPage>, b: int, key: int)
    requires Path(file, b, key)
    ensures !Descends(file, b, key, file[b].level + 1)
    decreases file[b].level
  {
    hide FoundChild;
    if file[b].level > 0 {
      var c := FoundChild(file[b], key);
      PathEnds(file, c, key);
      Fewer(file, c, key, file[c].level + 1, file[b].level);
    }
  }

  lemma {:induction false} Fewer(file: seq<DirPage>, b: int, key: int, n: nat, more: nat)
    requires !Descends(file, b, key, n) && n <= more
    ensures !Descends(file, b, key, more)
    decreases n
  {
    hide FoundChild;
    if 0 <= b < |file| && PageReady(file[b]) && file[b].slots[0].key <= key && file[b].level > 0 {
      Fewer(file, FoundChild(file[b], key), key, n - 1, more - 1);
    }
  }

  /** After the lower page has split, exactly these searches never end. */
  lemma {:induction false} LowerEndlessIff(file: seq<DirPage>, recs: seq<Rec>, m: nat, e: Rec, full: nat, key: int)
    requires Holding(file, recs, m, full) && m > 0 && NewEntry(recs, e) && !HasRoom(file, e.key, full)
    requires e.key < recs[m].key && recs[0].key <= key
    ensures Takes(file, e, full) && full == m + 1 < |Added(recs, e)| && file != [] && |file[0].slots| > 2
    ensures Endless(IndexEntry(file, e, full), key) <==>
            BackToRoot(Added(recs, e), m + 1, full / 2, file[0].slots[2], key)
  {
    hide *;
    FiveAfterLower(file, recs, m, e, full);
    EndlessIff(IndexEntry(file, e, full), Added(recs, e), m + 1, full / 2, key);
  }

  /** After the upper page has split, exactly these searches never end. */
  lemma {:induction false} UpperEndlessIff(file: seq<DirPage>, recs: seq<Rec>, m: nat, e: Rec, full: nat, key: int)
    requires Holding(file, recs, m, full) && m > 0 && NewEntry(recs, e) && !HasRoom(file, e.key, full)
    requires recs[m].key < e.key && recs[0].key <= key
    ensures Takes(file, e, full) && m + full / 2 < |Added(recs, e)| && file != [] && |file[0].slots| > 2
    ensures Endless(IndexEntry(file, e, full), key) <==>
            BackToRoot(Added(recs, e), m, m + full / 2, file[0].slots[2], key)
  {
    hide *;
    FiveAfterUpper(file, recs, m, e, full);
    EndlessIff(IndexEntry(file, e, full), Added(recs, e), m, m + full / 2, key);
  }

  // ---- failing inputs ----

  /** Three separators make the root grow, and a fourth fills its upper page: the search for 0, between the separators
      -5 and 5, goes around in a circle. */
  lemma {:induction false} ZeroGoesRound()
    ensures var p, e := DirPage(0, 3, [Rec(-1000, 0, 0), Rec(-5, 1, 0), Rec(5, 2, 0), DefaultRec]), Rec(10, 3, 0);
            Takes(Grown(p), e, 3) && Endless(IndexEntry(Grown(p), e, 3), 0) && !Path(IndexEntry(Grown(p), e, 3), 0, 0)
  {
    var p, e := DirPage(0, 3, [Rec(-1000, 0, 0), Rec(-5, 1, 0), Rec(5, 2, 0), DefaultRec]), Rec(10, 3, 0);
    var recs := [Rec(-1000, 0, 0), Rec(-5, 1, 0), Rec(5, 2, 0)];
    assert p.Recs() == recs;
    GrownHolds(p, 3);
    AddedLast(recs, e);
    GrownRoot(p);
    hide Grown, FreshPage, Endless, Takes, IndexEntry, Holding, Path, FivePages;
    assert PageFor(Grown(p), e.key) == 1;
    UpperEndlessIff(Grown(p), recs, 1, e, 3, 0);
    EndlessNoPath(IndexEntry(Grown(p), e, 3), 0);
  }

  lemma {:induction false} EndlessNoPath(file: seq<DirPage>, key: int)
    requires Endless(file, key)
    ensures !Path(file, 0, key)
  {
    if Path(file, 0, key) {
      PathEnds(file, 0, key);
    }
  }

  /** Three separators make the root grow, and two more fill its lower page: the search for 10, the first separator of
      the upper page, ends at leaf 4 instead of leaf 1. */
  lemma {:induction false} UpperPageLost()
    ensures var p := DirPage(0, 3, [Rec(-1000, 0, 0), Rec(10, 1, 0), Rec(20, 2, 0), DefaultRec]);
            var a, b := Rec(5, 3, 0), Rec(7, 4, 0);
            var recs := Added(Added(p.Recs(), a), b);
            Takes(Grown(p), a, 3) && Takes(IndexEntry(Grown(p), a, 3), b, 3) && recs[0].key <= 10 &&
            Finds(IndexEntry(IndexEntry(Grown(p), a, 3), b, 3), 10, 4) && RightChild(recs, 10) == 1
  {
    var p := DirPage(0, 3, [Rec(-1000, 0, 0), Rec(10, 1, 0), Rec(20, 2, 0), DefaultRec]);
    var a, b := Rec(5, 3, 0), Rec(7, 4, 0);
    var recs := [Rec(-1000, 0, 0), Rec(10, 1, 0), Rec(20, 2, 0)];
    var recs1 := [Rec(-1000, 0, 0), a, Rec(10, 1, 0), Rec(20, 2, 0)];
    var recs2 := [Rec(-1000, 0, 0), a, b, Rec(10, 1, 0), Rec(20, 2, 0)];
    assert p.Recs() == recs && p.Fits();
    hide *;
    TenRecs(recs, a, recs1, b, recs2);
    LowerTakes(p, recs, a);
    var file := IndexEntry(Grown(p), a, 3);
    LowerTakesNo(file, recs1, b);
    FiveAfterLower(file, recs1, 2, b, 3);
    TenAstray(IndexEntry(file, b, 3), recs2);
  }

  lemma {:induction false} TenRecs(recs: seq<Rec>, a: Rec, recs1: seq<Rec>, b: Rec, recs2: seq<Rec>)
    requires recs == [Rec(-1000, 0, 0), Rec(10, 1, 0), Rec(20, 2, 0)] && a == Rec(5, 3, 0) && b == Rec(7, 4, 0)
    requires recs1 == [Rec(-1000, 0, 0), a, Rec(10, 1, 0), Rec(20, 2, 0)]
    requires recs2 == [Rec(-1000, 0, 0), a, b, Rec(10, 1, 0), Rec(20, 2, 0)]
    ensures Added(recs, a) == recs1 && Added(recs1, b) == recs2
    ensures Ascending(recs) && Distinct(recs) && NewEntry(recs, a) && NewEntry(recs1, b)
  {
    SlotIs(recs, 5, 0);
    SlotIs(recs1, 7, 1);
  }

  /** The lower page of a grown root of three takes one entry. */
  lemma {:induction false} LowerTakes(p: DirPage, recs: seq<Rec>, e: Rec)
    requires p.level == 0 && p.count == 3 < |p.slots| && p.Recs() == recs && Ascending(recs) && Distinct(recs)
    requires e.key < recs[1].key && NewEntry(recs, e)
    ensures Takes(Grown(p), e, 3) && Holding(IndexEntry(Grown(p), e, 3), Added(recs, e), 2, 3)
    ensures var root := IndexEntry(Grown(p), e, 3)[0]; |root.slots| > 2 && root.slots[2] == recs[2]
  {
    GrownHolds(p, 3);
    GrownRoot(p);
    assert p.slots[1] == recs[1] && p.slots[2] == recs[2];
    assert Grown(p)[2].count == 1;
    hide Grown;
    TwoInsert(Grown(p), recs, 1, e, 3);
  }

  lemma {:induction false} LowerTakesNo(file: seq<DirPage>, recs: seq<Rec>, e: Rec)
    requires Holding(file, recs, 2, 3) && e.key < recs[2].key
    ensures !HasRoom(file, e.key, 3)
  {
  }

  lemma {:induction false} TenAstray(file: seq<DirPage>, recs: seq<Rec>)
    requires FivePages(file, recs, 3, 1) && file[0].slots[2].key != 10
    requires recs == [Rec(-1000, 0, 0), Rec(5, 3, 0), Rec(7, 4, 0), Rec(10, 1, 0), Rec(20, 2, 0)]
    ensures recs[0].key <= 10 && Finds(file, 10, 4) && RightChild(recs, 10) == 1
  {
    FromRoot(file, recs, 3, 1, 10);
    RouteOfIs(recs, 10, 3);
    PartAscends(recs, 1, 3);
    LeafPage(file, 3, Part(recs, 1, 3), DefaultRec, 10);
    hide FivePages, Leftover, Ascending, Distinct, Part;
    PartLast(recs, 1, 3, 10);
  }
}
