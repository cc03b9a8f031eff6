/** The bookmarks manager's store: pinning, one shared Quick Access order, folders
    as tags, and deletion, command by command. */
module BookmarkStore {
  import opened Basics
  import opened Versions

  datatype Bookmark = Bookmark(id: string, url: string, tags: seq<string>, pinned: bool, order: Option<nat>)

  datatype Library = Library(bookmarks: seq<Bookmark>, folders: seq<string>, writes: nat)

  /** `ids` is None when it is not a list. */
  datatype Command =
    | Add(url: string)
    | SetPinned(id: string, on: bool)
    | Reorder(ids: Option<seq<string>>)
    | File(id: string, folder: string)
    | Unfile(id: string, folder: string)
    | CreateFolder(folder: string)
    | DeleteFolder(folder: string)
    | Delete(id: string)
    | DeleteAll
    | Look

  datatype Reply = Done | NotFound | BadArgs

  // ---- folder names ------------------------------------------------------

  predicate IsSpace(c: char) {
    || '\t' <= c <= '\r' || c in {' ', '\U{A0}', '\U{1680}', '\U{2028}', '\U{2029}', '\U{202F}', '\U{205F}'}
    || '\U{2000}' <= c <= '\U{200A}' || c == '\U{3000}' || c == '\U{FEFF}'
  }

  /** No blank at either end. */
  predicate Trimmed(s: string) { s == "" || (!IsSpace(s[0]) && !IsSpace(s[|s| - 1])) }

  /** `trim()`. */
  function Trim(s: string): (r: string)
    ensures Trimmed(r) && |r| <= |s| && forall c :: c in r ==> c in s
  {
    if s != "" && IsSpace(s[0]) then Trim(s[1..])
    else if s != "" && IsSpace(s[|s| - 1]) then Trim(s[..|s| - 1])
    else s
  }

  const MAX_NAME: nat := 40

  /** `toLowerCase()`, which may change the length of a text. */
  type Lowering = string -> string

  /** The first forty characters of a trimmed name. */
  function Cut(raw: string): string {
    var t := Trim(raw);
    if |t| > MAX_NAME then t[..MAX_NAME] else t
  }

  /** What the store makes of a folder's name: blanks trimmed, at most forty
      characters, lowercase. */
  function Norm(lower: Lowering, raw: string): string { Trim(lower(Cut(raw))) }

  /** Lowercasing leaves any piece of a lowercased text as it is. */
  ghost predicate Settles(lower: Lowering) {
    forall s, i, j :: 0 <= i <= j <= |lower(s)| ==> lower(lower(s)[i..j]) == lower(s)[i..j]
  }

  lemma {:induction false} TrimIsPiece(s: string) returns (i: nat, j: nat)
    ensures i <= j <= |s| && Trim(s) == s[i..j]
  {
    if s != "" && IsSpace(s[0]) {
      i, j := TrimIsPiece(s[1..]);
      assert s[1..][i..j] == s[i + 1..j + 1];
      i, j := i + 1, j + 1;
    } else if s != "" && IsSpace(s[|s| - 1]) {
      i, j := TrimIsPiece(s[..|s| - 1]);
      assert s[..|s| - 1][i..j] == s[i..j];
    } else {
      i, j := 0, |s|;
      assert s[0..|s|] == s;
    }
  }

  /** A name the store has made is left as it is when it comes back if and only if
      lowercasing did not make it longer than forty characters. */
  lemma NormIsStableIff(lower: Lowering, raw: string)
    requires Settles(lower)
    ensures Norm(lower, Norm(lower, raw)) == Norm(lower, raw) <==> |Norm(lower, raw)| <= MAX_NAME
  {
    var low, n := lower(Cut(raw)), Norm(lower, raw);
    var i, j := TrimIsPiece(low);
    assert Trim(n) == n;
    var cut := Cut(n);
    var to := i + |cut|;
    assert cut == low[i..to];
    assert lower(cut) == cut;
    if |n| > MAX_NAME { TrimIsShorter(cut); }
  }

  lemma TrimIsShorter(s: string)
    ensures |Trim(s)| <= |s|
  {}

  const DOTTED_I: char := '\U{130}'
  const COMBINING_DOT: char := '\U{307}'

  /** Lowercasing of ASCII and of the dotted capital I, which becomes two characters. */
  function LowerDotted(s: string): string {
    if s == "" then ""
    else (if s[0] == DOTTED_I then ['i', COMBINING_DOT] else [LowerChar(s[0])]) + LowerDotted(s[1..])
  }

  function Dotted(n: nat): string { seq(n, _ => DOTTED_I) }

  predicate IsPlain(s: string) { forall k :: 0 <= k < |s| ==> s[k] == 'i' || s[k] == COMBINING_DOT }

  lemma {:induction false} DottedDoubles(n: nat)
    ensures |LowerDotted(Dotted(n))| == 2 * n && IsPlain(LowerDotted(Dotted(n)))
  {
    if n > 0 {
      DottedDoubles(n - 1);
      assert Dotted(n)[1..] == Dotted(n - 1);
    }
  }

  /** A name of twenty-one dotted capital I's becomes one of forty-two characters,
      which is cut when it comes back. */
  lemma DottedNameIsCut()
    ensures |Norm(LowerDotted, Dotted(21))| == 42
    ensures |Norm(LowerDotted, Norm(LowerDotted, Dotted(21)))| != 42
  {
    hide LowerDotted;
    DottedDoubles(21);
    assert Trim(Dotted(21)) == Dotted(21);
    var low := LowerDotted(Dotted(21));
    assert Trim(low) == low;
    CutIsStable(low);
  }

  /** Cut to forty, the same text stays forty characters at most. */
  lemma CutIsStable(low: string)
    requires |low| == 42 && IsPlain(low)
    ensures |Norm(LowerDotted, low)| <= MAX_NAME
  {
    assert Trim(low) == low;
    PlainStays(Cut(low));
    TrimIsShorter(Cut(low));
  }

  lemma {:induction false} PlainStays(s: string)
    requires IsPlain(s)
    ensures LowerDotted(s) == s
  {
    if s != "" { PlainStays(s[1..]); }
  }

  // ---- lookups -----------------------------------------------------------

  /** `find`: the first bookmark with the id, or the length when there is none. */
  function Find(bs: seq<Bookmark>, id: string): (i: nat)
    ensures i <= |bs|
    ensures i < |bs| ==> bs[i].id == id
    ensures forall k :: 0 <= k < i ==> bs[k].id != id
  {
    if bs == [] || bs[0].id == id then 0 else Find(bs[1..], id) + 1
  }

  function Ids(bs: seq<Bookmark>): set<string> { set b | b in bs :: b.id }

  function PinnedIds(bs: seq<Bookmark>): set<string> { set b | b in bs && b.pinned :: b.id }

  function Pinned(bs: seq<Bookmark>): (r: seq<Bookmark>)
    ensures forall b :: b in r <==> b in bs && b.pinned
  {
    if bs == [] then [] else (if bs[0].pinned then [bs[0]] else []) + Pinned(bs[1..])
  }

  function SetOf(ids: seq<string>): set<string> { set id | id in ids }

  /** The id scheme counts the bookmarks there are. */
  function NextId(bs: seq<Bookmark>): string { "new" + Decimal(|bs| + 1) }

  function FullUrl(url: string): string {
    if exists i :: 0 <= i <= |url| && "://" <= url[i..] then url else "https://" + url
  }

  // ---- one command -------------------------------------------------------

  function Drop(tags: seq<string>, t: string): (r: seq<string>)
    ensures forall x :: x in r <==> x in tags && x != t
  {
    if tags == [] then [] else (if tags[0] == t then [] else [tags[0]]) + Drop(tags[1..], t)
  }

  function SetOrder(bs: seq<Bookmark>, id: string, order: nat): seq<Bookmark> {
    var i := Find(bs, id);
    if i < |bs| then bs[i := bs[i].(order := Some(order))] else bs
  }

  /** The first n ids given their places as orders. */
  function Ordered(bs: seq<Bookmark>, ids: seq<string>, n: nat): seq<Bookmark>
    requires n <= |ids|
  {
    if n == 0 then bs else SetOrder(Ordered(bs, ids, n - 1), ids[n - 1], n - 1)
  }

  predicate ReorderOk(bs: seq<Bookmark>, ids: seq<string>) {
    && |ids| == |Pinned(bs)| && |SetOf(ids)| == |ids|
    && forall id :: id in ids ==> id in PinnedIds(bs)
  }

  function Without(bs: seq<Bookmark>, id: string): (r: seq<Bookmark>)
    ensures forall b :: b in r <==> b in bs && b.id != id
  {
    if bs == [] then [] else (if bs[0].id == id then [] else [bs[0]]) + Without(bs[1..], id)
  }

  function Untagged(bs: seq<Bookmark>, folder: string): (r: seq<Bookmark>)
    ensures |r| == |bs|
    ensures forall i :: 0 <= i < |bs| ==> r[i] == bs[i].(tags := Drop(bs[i].tags, folder))
  {
    if bs == [] then [] else [bs[0].(tags := Drop(bs[0].tags, folder))] + Untagged(bs[1..], folder)
  }

  function Step(lower: Lowering, s: Library, cmd: Command): (Library, Reply) {
    var bs := s.bookmarks;
    match cmd
    case Look => (s, Done)
    case Add(url) =>
      if url == "" then (s, BadArgs)
      else (s.(bookmarks := bs + [Bookmark(NextId(bs), FullUrl(url), [], false, None)]), Done)
    case SetPinned(id, on) =>
      var i := Find(bs, id);
      if i == |bs| then (s, NotFound)
      else (s.(bookmarks := bs[i := bs[i].(pinned := on, order := if on then bs[i].order else None)]), Done)
    case Reorder(ids) =>
      if ids.None? || !ReorderOk(bs, ids.value) then (s, BadArgs)
      else (s.(bookmarks := Ordered(bs, ids.value, |ids.value|), writes := s.writes + 1), Done)
    case File(id, folder) =>
      var i := Find(bs, id);
      if i == |bs| then (s, NotFound)
      else if Norm(lower, folder) in bs[i].tags then (s, Done)
      else (s.(bookmarks := bs[i := bs[i].(tags := bs[i].tags + [Norm(lower, folder)])]), Done)
    case Unfile(id, folder) =>
      var i := Find(bs, id);
      if i == |bs| then (s, NotFound)
      else (s.(bookmarks := bs[i := bs[i].(tags := Drop(bs[i].tags, Norm(lower, folder)))]), Done)
    case CreateFolder(folder) =>
      if Norm(lower, folder) == "" then (s, BadArgs)
      else if Norm(lower, folder) in s.folders then (s, Done)
      else (s.(folders := s.folders + [Norm(lower, folder)]), Done)
    case DeleteFolder(folder) =>
      (s.(folders := Drop(s.folders, Norm(lower, folder)), bookmarks := Untagged(bs, Norm(lower, folder))), Done)
    case Delete(id) => (s.(bookmarks := Without(bs, id)), Done)
    case DeleteAll => (s.(bookmarks := [], folders := []), Done)
  }

  // ---- the invariant -----------------------------------------------------

  ghost predicate DistinctIds(bs: seq<Bookmark>) {
    forall i, j :: 0 <= i < j < |bs| ==> bs[i].id != bs[j].id
  }

  /** An ordered bookmark is pinned, and no two share an order. */
  ghost predicate OrdersOk(bs: seq<Bookmark>) {
    && (forall i :: 0 <= i < |bs| && bs[i].order.Some? ==> bs[i].pinned)
    && (forall i, j :: 0 <= i < j < |bs| && bs[i].order.Some? && bs[j].order.Some? ==>
          bs[i].order != bs[j].order)
  }

  ghost predicate Sound(s: Library) { DistinctIds(s.bookmarks) && OrdersOk(s.bookmarks) }

  /** The next id is not in use: what an add relies on. */
  predicate FreshNext(s: Library) { NextId(s.bookmarks) !in Ids(s.bookmarks) }

  // ---- reordering --------------------------------------------------------

  lemma {:induction false} PinnedCount(bs: seq<Bookmark>)
    requires DistinctIds(bs)
    ensures |PinnedIds(bs)| == |Pinned(bs)|
  {
    if bs != [] {
      var rest := bs[1..];
      assert DistinctIds(rest);
      PinnedCount(rest);
      assert bs == [bs[0]] + rest;
      if bs[0].pinned {
        assert bs[0].id !in PinnedIds(rest);
        assert PinnedIds(bs) == PinnedIds(rest) + {bs[0].id};
      } else {
        assert PinnedIds(bs) == PinnedIds(rest);
      }
    }
  }

  lemma SameSizeSubset<T>(a: set<T>, b: set<T>)
    requires a <= b && |a| == |b|
    ensures a == b
  {
    assert |b - a| == |b| - |a|;
  }

  lemma {:induction false} DistinctFromCount(ids: seq<string>, i: nat, j: nat)
    requires |SetOf(ids)| == |ids| && i < j < |ids|
    ensures ids[i] != ids[j]
  {
    if ids[i] == ids[j] {
      var others := ids[..j] + ids[j + 1..];
      assert forall id :: id in ids ==> id in others by {
        forall id | id in ids ensures id in others {
          var k :| 0 <= k < |ids| && ids[k] == id;
          if k == j { assert others[i] == id; } else { assert others[if k < j then k else k - 1] == id; }
        }
      }
      assert SetOf(ids) == SetOf(others);
      CountAtMost(others);
    }
  }

  lemma {:induction false} CountAtMost(ids: seq<string>)
    ensures |SetOf(ids)| <= |ids|
  {
    if ids != [] {
      CountAtMost(ids[1..]);
      assert ids == [ids[0]] + ids[1..];
      assert SetOf(ids) == SetOf(ids[1..]) + {ids[0]};
    }
  }

  /** An accepted list names every pinned bookmark exactly once. */
  lemma AcceptedIsPermutation(bs: seq<Bookmark>, ids: seq<string>)
    requires DistinctIds(bs) && ReorderOk(bs, ids)
    ensures SetOf(ids) == PinnedIds(bs)
    ensures forall i, j :: 0 <= i < j < |ids| ==> ids[i] != ids[j]
  {
    PinnedCount(bs);
    SameSizeSubset(SetOf(ids), PinnedIds(bs));
    forall i, j | 0 <= i < j < |ids| ensures ids[i] != ids[j] { DistinctFromCount(ids, i, j); }
  }

  lemma {:induction false} FindOnly(bs: seq<Bookmark>, i: nat)
    requires DistinctIds(bs) && i < |bs|
    ensures Find(bs, bs[i].id) == i
  {}

  /** After the first n ids: the same bookmarks, with the places of those ids as
      orders and every other order as it was. */
  lemma {:induction false} OrderedIs(bs: seq<Bookmark>, ids: seq<string>, n: nat)
    requires DistinctIds(bs) && n <= |ids|
    requires forall i, j :: 0 <= i < j < |ids| ==> ids[i] != ids[j]
    ensures var r := Ordered(bs, ids, n);
            && |r| == |bs|
            && (forall i :: 0 <= i < |bs| ==> r[i] == bs[i].(order := r[i].order))
            && (forall i, k :: 0 <= i < |bs| && 0 <= k < n && ids[k] == bs[i].id ==> r[i].order == Some(k))
            && (forall i :: 0 <= i < |bs| && bs[i].id !in ids[..n] ==> r[i].order == bs[i].order)
  {
    if n > 0 {
      OrderedIs(bs, ids, n - 1);
      var p, r := Ordered(bs, ids, n - 1), Ordered(bs, ids, n);
      var id := ids[n - 1];
      assert ids[..n] == ids[..n - 1] + [id];
      var at := Find(p, id);
      forall i | 0 <= i < |bs|
        ensures r[i] == if i == at then p[i].(order := Some(n - 1)) else p[i]
        ensures i == at <==> bs[i].id == id
      {
        assert p[i].id == bs[i].id;
        if bs[i].id == id { FindOnly(p, i); }
      }
    }
  }

  /** Bookmark for bookmark: only orders change, a pinned one's to its place in
      the list asked for, an unpinned one's to none. */
  ghost predicate OrderedAsAsked(bs: seq<Bookmark>, ids: seq<string>, r: seq<Bookmark>) {
    && |r| == |bs|
    && (forall i :: 0 <= i < |bs| ==> r[i] == bs[i].(order := r[i].order))
    && (forall i :: 0 <= i < |bs| && bs[i].pinned ==>
          r[i].order.Some? && r[i].order.value < |ids| && ids[r[i].order.value] == bs[i].id)
    && (forall i :: 0 <= i < |bs| && !bs[i].pinned ==> r[i].order == None)
  }

  lemma OrdersFromPlaces(bs: seq<Bookmark>, ids: seq<string>, r: seq<Bookmark>)
    requires DistinctIds(bs) && SetOf(ids) == PinnedIds(bs) && |r| == |bs|
    requires forall i :: 0 <= i < |bs| ==> r[i] == bs[i].(order := r[i].order)
    requires forall i, k :: 0 <= i < |bs| && 0 <= k < |ids| && ids[k] == bs[i].id ==> r[i].order == Some(k)
    requires forall i :: 0 <= i < |bs| && bs[i].id !in ids ==> r[i].order == bs[i].order
    requires OrdersOk(bs)
    ensures OrderedAsAsked(bs, ids, r)
  {
    forall i | 0 <= i < |bs| && bs[i].pinned
      ensures r[i].order.Some? && r[i].order.value < |ids| && ids[r[i].order.value] == bs[i].id
    {
      assert bs[i].id in SetOf(ids);
      var k :| 0 <= k < |ids| && ids[k] == bs[i].id;
    }
    forall i | 0 <= i < |bs| && !bs[i].pinned ensures r[i].order == None {
      UnpinnedIsNotNamed(bs, i);
      assert bs[i].id !in SetOf(ids);
    }
  }

  lemma ReorderedAsAsked(lower: Lowering, s: Library, ids: seq<string>)
    requires Sound(s) && ReorderOk(s.bookmarks, ids)
    ensures OrderedAsAsked(s.bookmarks, ids, Step(lower, s, Reorder(Some(ids))).0.bookmarks)
  {
    AcceptedIsPermutation(s.bookmarks, ids);
    OrderedIs(s.bookmarks, ids, |ids|);
    assert ids[..|ids|] == ids;
    OrdersFromPlaces(s.bookmarks, ids, Ordered(s.bookmarks, ids, |ids|));
  }

  lemma EveryPlaceIsTaken(bs: seq<Bookmark>, ids: seq<string>, r: seq<Bookmark>, k: nat)
    requires OrderedAsAsked(bs, ids, r) && k < |ids| && ids[k] in PinnedIds(bs)
    requires forall i, j :: 0 <= i < j < |ids| ==> ids[i] != ids[j]
    ensures exists b :: b in r && b.id == ids[k] && b.order == Some(k)
  {
    var b :| b in bs && b.pinned && b.id == ids[k];
    var i :| 0 <= i < |bs| && bs[i] == b;
    assert r[i] in r && r[i].id == ids[k];
  }

  /** An accepted reorder gives the pinned bookmarks exactly the orders 0 to
      n - 1, in the order asked for, and leaves the others without one. */
  lemma ReorderAssignsAll(lower: Lowering, s: Library, ids: seq<string>)
    requires Sound(s) && ReorderOk(s.bookmarks, ids)
    ensures var r := Step(lower, s, Reorder(Some(ids))).0.bookmarks;
            && OrderedAsAsked(s.bookmarks, ids, r)
            && (forall k :: 0 <= k < |ids| ==> exists b :: b in r && b.id == ids[k] && b.order == Some(k))
  {
    ReorderedAsAsked(lower, s, ids);
    AcceptedIsPermutation(s.bookmarks, ids);
    var r := Step(lower, s, Reorder(Some(ids))).0.bookmarks;
    forall k | 0 <= k < |ids| ensures exists b :: b in r && b.id == ids[k] && b.order == Some(k) {
      assert ids[k] in SetOf(ids);
      EveryPlaceIsTaken(s.bookmarks, ids, r, k);
    }
  }

  lemma UnpinnedIsNotNamed(bs: seq<Bookmark>, i: nat)
    requires DistinctIds(bs) && i < |bs| && !bs[i].pinned
    ensures bs[i].id !in PinnedIds(bs)
  {}

  /** A refused command changes nothing at all. */
  lemma RefusedChangesNothing(lower: Lowering, s: Library, cmd: Command)
    ensures Step(lower, s, cmd).1 != Done ==> Step(lower, s, cmd).0 == s
  {}

  // ---- folders -----------------------------------------------------------

  lemma {:induction false} DropAbsent(tags: seq<string>, t: string)
    requires t !in tags
    ensures Drop(tags, t) == tags && Drop(tags + [t], t) == tags
  {
    if tags == [] {
      assert [t][1..] == [];
    } else {
      DropAbsent(tags[1..], t);
      assert tags == [tags[0]] + tags[1..];
      assert (tags + [t])[1..] == tags[1..] + [t];
    }
  }

  /** Unfiling undoes filing under a folder the bookmark was not in. */
  lemma UnfileUndoesFile(lower: Lowering, s: Library, id: string, folder: string)
    requires Find(s.bookmarks, id) < |s.bookmarks| && Norm(lower, folder) !in s.bookmarks[Find(s.bookmarks, id)].tags
    ensures Step(lower, Step(lower, s, File(id, folder)).0, Unfile(id, folder)).0 == s
  {
    hide Norm;
    var bs, i := s.bookmarks, Find(s.bookmarks, id);
    var b := bs[i];
    var r := bs[i := b.(tags := b.tags + [Norm(lower, folder)])];
    DropAbsent(b.tags, Norm(lower, folder));
    FindSame(bs, r, id);
    assert r[i := b] == bs;
  }

  lemma {:induction false} FindSame(bs: seq<Bookmark>, r: seq<Bookmark>, id: string)
    requires |r| == |bs| && forall i :: 0 <= i < |bs| ==> r[i].id == bs[i].id
    ensures Find(r, id) == Find(bs, id)
  {
    if bs != [] && bs[0].id != id { FindSame(bs[1..], r[1..], id); }
  }

  /** Deleting a folder takes its name out of the list and off every bookmark,
      and touches no bookmark otherwise. */
  lemma DeletedFolderIsGone(lower: Lowering, s: Library, folder: string)
    ensures var r, name := Step(lower, s, DeleteFolder(folder)).0, Norm(lower, folder);
            && (forall f :: f in r.folders <==> f in s.folders && f != name)
            && |r.bookmarks| == |s.bookmarks| && r.writes == s.writes
            && forall i :: 0 <= i < |r.bookmarks| ==>
                 var b, c := s.bookmarks[i], r.bookmarks[i];
                 c == b.(tags := c.tags) && forall t :: t in c.tags <==> t in b.tags && t != name
  {
    hide Norm;
  }

  // ---- every command -----------------------------------------------------

  lemma {:induction false} WithoutKeepsDistinct(bs: seq<Bookmark>, id: string)
    requires DistinctIds(bs)
    ensures DistinctIds(Without(bs, id))
  {
    if bs != [] {
      var rest := Without(bs[1..], id);
      WithoutKeepsDistinct(bs[1..], id);
      forall k | 0 <= k < |rest| ensures rest[k].id != bs[0].id { assert rest[k] in bs[1..]; }
    }
  }

  /** An order held after a delete was held before, by the same bookmark. */
  lemma {:induction false} WithoutKeepsOrders(bs: seq<Bookmark>, id: string)
    requires OrdersOk(bs)
    ensures OrdersOk(Without(bs, id))
  {
    if bs != [] {
      var tail := bs[1..];
      var rest := Without(tail, id);
      assert OrdersOk(tail);
      WithoutKeepsOrders(tail, id);
      forall k | 0 <= k < |rest| && rest[k].order.Some? ensures rest[k].order != bs[0].order {
        OrderIsElsewhere(bs, rest[k]);
      }
    }
  }

  lemma OrderIsElsewhere(bs: seq<Bookmark>, b: Bookmark)
    requires OrdersOk(bs) && bs != [] && b in bs[1..] && b.order.Some?
    ensures b.order != bs[0].order
  {
    var m :| 0 <= m < |bs[1..]| && bs[1..][m] == b;
    assert bs[m + 1] == b;
  }

  lemma ReorderKeepsSound(lower: Lowering, s: Library, ids: seq<string>)
    requires Sound(s) && ReorderOk(s.bookmarks, ids)
    ensures Sound(Step(lower, s, Reorder(Some(ids))).0)
  {
    ReorderAssignsAll(lower, s, ids);
    var bs, r := s.bookmarks, Step(lower, s, Reorder(Some(ids))).0.bookmarks;
    forall i | 0 <= i < |r|
      ensures r[i].id == bs[i].id && r[i].pinned == bs[i].pinned
      ensures r[i].order.Some? ==> r[i].pinned && r[i].order.value < |ids| && ids[r[i].order.value] == r[i].id
    {
      assert r[i] == bs[i].(order := r[i].order);
    }
  }

  lemma DeleteKeepsSound(lower: Lowering, s: Library, id: string)
    requires Sound(s)
    ensures Sound(Step(lower, s, Delete(id)).0)
  {
    WithoutKeepsDistinct(s.bookmarks, id);
    WithoutKeepsOrders(s.bookmarks, id);
  }

  /** Ids kept place by place, and orders kept or dropped: still sound. */
  lemma FewerOrdersKeepSound(s: Library, r: Library)
    requires Sound(s) && |r.bookmarks| == |s.bookmarks|
    requires forall i :: 0 <= i < |s.bookmarks| ==>
               var b, c := s.bookmarks[i], r.bookmarks[i];
               c.id == b.id && (c.order == None || (c.order == b.order && c.pinned))
    ensures Sound(r)
  {}

  /** A pin, an unpin, a folder command: no id changes and no order appears. */
  lemma MarkKeepsSound(lower: Lowering, s: Library, cmd: Command)
    requires Sound(s) && (cmd.SetPinned? || cmd.File? || cmd.Unfile? || cmd.DeleteFolder?)
    ensures Sound(Step(lower, s, cmd).0)
  {
    hide Norm;
    FewerOrdersKeepSound(s, Step(lower, s, cmd).0);
  }

  /** Every command but an add keeps the store sound, and an add keeps it sound
      exactly when the id it is about to use is not in use. */
  lemma StepSoundIff(lower: Lowering, s: Library, cmd: Command)
    requires Sound(s)
    ensures Sound(Step(lower, s, cmd).0) <==> (cmd.Add? && cmd.url != "" ==> FreshNext(s))
  {
    match cmd
    case Reorder(ids) =>
      if ids.Some? && ReorderOk(s.bookmarks, ids.value) { ReorderKeepsSound(lower, s, ids.value); }
    case Delete(id) => DeleteKeepsSound(lower, s, id);
    case Add(url) =>
      if url != "" { AddSoundIff(s, Step(lower, s, cmd).0.bookmarks); }
    case SetPinned(_, _) => MarkKeepsSound(lower, s, cmd);
    case File(_, _) => MarkKeepsSound(lower, s, cmd);
    case Unfile(_, _) => MarkKeepsSound(lower, s, cmd);
    case DeleteFolder(_) => MarkKeepsSound(lower, s, cmd);
    case _ =>
  }

  lemma AddSoundIff(s: Library, r: seq<Bookmark>)
    requires Sound(s) && |r| == |s.bookmarks| + 1 && r[..|s.bookmarks|] == s.bookmarks
    requires r[|s.bookmarks|].id == NextId(s.bookmarks) && r[|s.bookmarks|].order == None
    ensures DistinctIds(r) && OrdersOk(r) <==> FreshNext(s)
  {
    var bs, n := s.bookmarks, |s.bookmarks|;
    assert forall i :: 0 <= i < n ==> r[i] == bs[i];
    if !FreshNext(s) {
      var b :| b in bs && b.id == NextId(bs);
      var i :| 0 <= i < n && bs[i] == b;
      assert r[i].id == r[n].id;
    }
  }

  /** Commands in turn. */
  function After(lower: Lowering, s: Library, cmds: seq<Command>): Library
    decreases |cmds|
  {
    if cmds == [] then s else After(lower, Step(lower, s, cmds[0]).0, cmds[1..])
  }

  /** No add meets an id in use. */
  ghost predicate FreshAdds(lower: Lowering, s: Library, cmds: seq<Command>)
    decreases |cmds|
  {
    cmds != [] ==>
      (cmds[0].Add? && cmds[0].url != "" ==> FreshNext(s)) && FreshAdds(lower, Step(lower, s, cmds[0]).0, cmds[1..])
  }

  /** Over every command run with a fresh id per add, an ordered bookmark is
      pinned and orders stay apart. */
  lemma {:induction false} RunKeepsSound(lower: Lowering, s: Library, cmds: seq<Command>)
    requires Sound(s) && FreshAdds(lower, s, cmds)
    ensures Sound(After(lower, s, cmds))
    decreases |cmds|
  {
    if cmds != [] {
      StepSoundIff(lower, s, cmds[0]);
      RunKeepsSound(lower, Step(lower, s, cmds[0]).0, cmds[1..]);
    }
  }

  lemma {:induction false} WithoutCount(bs: seq<Bookmark>, id: string)
    requires DistinctIds(bs)
    ensures |Without(bs, id)| == if id in Ids(bs) then |bs| - 1 else |bs|
  {
    if bs != [] {
      WithoutCount(bs[1..], id);
      assert bs == [bs[0]] + bs[1..];
      assert Ids(bs) == Ids(bs[1..]) + {bs[0].id};
    }
  }

  lemma NextIdReturns(bs: seq<Bookmark>, added: Bookmark, older: string)
    requires DistinctIds(bs + [added]) && older in Ids(bs) && added.id == NextId(bs)
    ensures var r := Without(bs + [added], older); added in r && NextId(r) == added.id
  {
    var b :| b in bs && b.id == older;
    var i :| 0 <= i < |bs| && bs[i] == b;
    assert (bs + [added])[i].id == older && (bs + [added])[|bs|] == added;
    assert b in bs + [added];
    WithoutCount(bs + [added], older);
  }

  lemma ExecThree(lower: Lowering, s: Library, a: Command, b: Command, c: Command)
    ensures var s1 := Step(lower, s, a).0; var s2 := Step(lower, s1, b).0;
            After(lower, s, [a, b, c]) == Step(lower, s2, c).0 &&
            (FreshAdds(lower, s, [a, b, c]) ==> c.Add? && c.url != "" ==> FreshNext(s2))
  {
    var s1 := Step(lower, s, a).0;
    var s2 := Step(lower, s1, b).0;
    assert [a, b, c][1..] == [b, c];
    assert [b, c][1..] == [c];
    assert [c][1..] == [];
    assert After(lower, s2, [c]) == Step(lower, s2, c).0;
    assert After(lower, s1, [b, c]) == After(lower, s2, [c]);
    assert FreshAdds(lower, s1, [b, c]) ==> FreshAdds(lower, s2, [c]);
  }

  /** The id scheme repeats: add, delete an older bookmark, add again, and the
      new bookmark takes the id of the first one added. */
  lemma AddDeleteAddRepeatsAnId(lower: Lowering, s: Library, older: string, u: string, u': string)
    requires Sound(s) && FreshNext(s) && older in Ids(s.bookmarks) && u != "" && u' != ""
    ensures !FreshAdds(lower, s, [Add(u), Delete(older), Add(u')])
    ensures !Sound(After(lower, s, [Add(u), Delete(older), Add(u')]))
  {
    hide NextId, FreshAdds, After, Without, FullUrl;
    var s1 := Step(lower, s, Add(u)).0;
    var s2 := Step(lower, s1, Delete(older)).0;
    StepSoundIff(lower, s, Add(u));
    NextIdReturns(s.bookmarks, s1.bookmarks[|s.bookmarks|], older);
    assert !FreshNext(s2);
    StepSoundIff(lower, s1, Delete(older));
    StepSoundIff(lower, s2, Add(u'));
    ExecThree(lower, s, Add(u), Delete(older), Add(u'));
  }

  // ---- the store ---------------------------------------------------------

  class Store {
    const lower: Lowering
    var bookmarks: seq<Bookmark>
    var folders: seq<string>
    var writes: nat

    constructor (lower: Lowering, s: Library)
      ensures Contents() == s && this.lower == lower
    {
      this.lower := lower;
      bookmarks, folders, writes := s.bookmarks, s.folders, s.writes;
    }

    function Contents(): Library
      reads this
    {
      Library(bookmarks, folders, writes)
    }

    method Handle(cmd: Command) returns (reply: Reply)
      modifies this
      ensures (Contents(), reply) == Step(lower, old(Contents()), cmd)
    {
      hide Norm, FullUrl, NextId;
      match cmd
      case Look =>
        return Done;
      case Add(url) =>
        if url == "" { return BadArgs; }
        bookmarks := bookmarks + [Bookmark(NextId(bookmarks), FullUrl(url), [], false, None)];
        return Done;
      case SetPinned(id, on) =>
        var i := Find(bookmarks, id);
        if i == |bookmarks| { return NotFound; }
        var b := bookmarks[i].(pinned := on);
        bookmarks := bookmarks[i := if on then b else b.(order := None)];
        return Done;
      case Reorder(ids) =>
        if ids.None? || !ReorderOk(bookmarks, ids.value) { return BadArgs; }
        AssignOrders(ids.value);
        writes := writes + 1;
        return Done;
      case File(id, folder) =>
        var i := Find(bookmarks, id);
        if i == |bookmarks| { return NotFound; }
        var b, f := bookmarks[i], Norm(lower, folder);
        if f !in b.tags { bookmarks := bookmarks[i := b.(tags := b.tags + [f])]; }
        return Done;
      case Unfile(id, folder) =>
        var i := Find(bookmarks, id);
        if i == |bookmarks| { return NotFound; }
        bookmarks := bookmarks[i := bookmarks[i].(tags := Drop(bookmarks[i].tags, Norm(lower, folder)))];
        return Done;
      case CreateFolder(folder) =>
        var name := Norm(lower, folder);
        if name == "" { return BadArgs; }
        if name !in folders { folders := folders + [name]; }
        return Done;
      case DeleteFolder(folder) =>
        var name := Norm(lower, folder);
        folders := Drop(folders, name);
        UntagAll(name);
        return Done;
      case Delete(id) =>
        bookmarks := Without(bookmarks, id);
        return Done;
      case DeleteAll =>
        bookmarks, folders := [], [];
        return Done;
    }

    method AssignOrders(ids: seq<string>)
      modifies this`bookmarks
      ensures bookmarks == Ordered(old(bookmarks), ids, |ids|)
    {
      for order := 0 to |ids|
        invariant bookmarks == Ordered(old(bookmarks), ids, order)
      {
        var i := Find(bookmarks, ids[order]);
        if i < |bookmarks| { bookmarks := bookmarks[i := bookmarks[i].(order := Some(order))]; }
      }
    }

    method UntagAll(folder: string)
      modifies this`bookmarks
      ensures bookmarks == Untagged(old(bookmarks), folder)
    {
      for i := 0 to |bookmarks|
        invariant |bookmarks| == |old(bookmarks)|
        invariant forall k :: 0 <= k < |bookmarks| ==>
                    bookmarks[k] == if k < i then Untagged(old(bookmarks), folder)[k] else old(bookmarks)[k]
      {
        var b := bookmarks[i];
        bookmarks := bookmarks[i := b.(tags := Drop(b.tags, folder))];
      }
    }
  }
}
