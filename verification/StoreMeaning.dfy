/** What each bookmarks command does, spelt out bookmark by bookmark. */
module StoreMeaning {
  import opened Basics
  import opened Versions
  import opened BookmarkStore

  /** The bookmark at place i is the first with the id. */
  ghost predicate IsAt(s: Library, id: string, i: nat) {
    && i < |s.bookmarks| && s.bookmarks[i].id == id
    && forall k :: 0 <= k < i ==> s.bookmarks[k].id != id
  }

  ghost predicate IsAbsent(s: Library, id: string) { forall b :: b in s.bookmarks ==> b.id != id }

  /** Only bookmark i is not as it was. */
  ghost predicate OnlyAt(s: Library, r: Library, i: nat) {
    && i < |s.bookmarks| == |r.bookmarks| && r.folders == s.folders && r.writes == s.writes
    && forall k :: 0 <= k < |s.bookmarks| && k != i ==> r.bookmarks[k] == s.bookmarks[k]
  }

  lemma FindIs(s: Library, id: string)
    ensures Find(s.bookmarks, id) < |s.bookmarks| ==> IsAt(s, id, Find(s.bookmarks, id))
    ensures Find(s.bookmarks, id) == |s.bookmarks| <==> IsAbsent(s, id)
    ensures forall i: nat :: IsAt(s, id, i) ==> i == Find(s.bookmarks, id)
  {
    var i := Find(s.bookmarks, id);
    if i == |s.bookmarks| {
      forall b | b in s.bookmarks ensures b.id != id {
        var k :| 0 <= k < |s.bookmarks| && s.bookmarks[k] == b;
      }
    } else {
      assert s.bookmarks[i] in s.bookmarks;
    }
  }

  /** An add without an address is refused; any other puts one more bookmark last,
      unpinned, unordered and in no folder, under "new" and the count it makes, with
      its address given a scheme if it has none. */
  lemma AddMeans(lower: Lowering, s: Library, url: string)
    ensures var (r, reply) := Step(lower, s, Add(url));
            if url == "" then r == s && reply == BadArgs
            else
              && reply == Done && r.folders == s.folders && r.writes == s.writes
              && |r.bookmarks| == |s.bookmarks| + 1 && r.bookmarks[..|s.bookmarks|] == s.bookmarks
              && var b := r.bookmarks[|s.bookmarks|];
                 && b.id == "new" + Decimal(|s.bookmarks| + 1) && b.tags == [] && !b.pinned && b.order == None
                 && (HasScheme(url) ==> b.url == url) && (!HasScheme(url) ==> b.url == "https://" + url)
  {
    SchemeIff(url);
  }

  ghost predicate HasScheme(url: string) { exists front, rest :: url == front + "://" + rest }

  lemma SchemeIff(url: string)
    ensures (exists i :: 0 <= i <= |url| && "://" <= url[i..]) <==> HasScheme(url)
  {
    if i :| 0 <= i <= |url| && "://" <= url[i..] {
      assert url == url[..i] + "://" + url[i + 3..];
    }
    if front, rest :| url == front + "://" + rest { assert url[|front|..] == "://" + rest; }
  }

  /** Pinning keeps the order a bookmark has, unpinning takes it; nothing else. */
  lemma PinMeans(lower: Lowering, s: Library, id: string, on: bool)
    ensures var (r, reply) := Step(lower, s, SetPinned(id, on));
            && (reply == NotFound <==> IsAbsent(s, id)) && (reply == NotFound ==> r == s)
            && (reply != NotFound ==>
                  reply == Done && exists i: nat :: IsAt(s, id, i) && IsPinnedAt(s, r, i, on))
  {
    FindIs(s, id);
    var i := Find(s.bookmarks, id);
    if i < |s.bookmarks| { assert IsPinnedAt(s, Step(lower, s, SetPinned(id, on)).0, i, on); }
  }

  ghost predicate IsPinnedAt(s: Library, r: Library, i: nat, on: bool) {
    && OnlyAt(s, r, i)
    && var b, c := s.bookmarks[i], r.bookmarks[i];
       && c.id == b.id && c.url == b.url && c.tags == b.tags && c.pinned == on
       && (on ==> c.order == b.order) && (!on ==> c.order == None)
  }

  /** Filing adds the folder's name last where it is not there yet. */
  lemma FileMeans(lower: Lowering, s: Library, id: string, folder: string)
    ensures var (r, reply) := Step(lower, s, File(id, folder)); var f := Norm(lower, folder);
            && (reply == NotFound <==> IsAbsent(s, id)) && (reply == NotFound ==> r == s)
            && (reply != NotFound ==>
                  reply == Done && exists i: nat :: IsAt(s, id, i) && IsFiledAt(s, r, i, f))
  {
    hide Norm;
    FindIs(s, id);
    var i := Find(s.bookmarks, id);
    if i < |s.bookmarks| { assert IsFiledAt(s, Step(lower, s, File(id, folder)).0, i, Norm(lower, folder)); }
  }

  ghost predicate IsFiledAt(s: Library, r: Library, i: nat, f: string) {
    && OnlyAt(s, r, i)
    && var b, c := s.bookmarks[i], r.bookmarks[i];
       && c.id == b.id && c.url == b.url && c.pinned == b.pinned && c.order == b.order
       && (if f in b.tags then c.tags == b.tags else c.tags == b.tags + [f])
  }

  /** r is s without one value, in the same order. */
  ghost predicate IsWithout<T>(s: seq<T>, ok: T -> bool, r: seq<T>) {
    if s == [] then r == []
    else if ok(s[|s| - 1]) then r != [] && r[|r| - 1] == s[|s| - 1] && IsWithout(s[..|s| - 1], ok, r[..|r| - 1])
    else IsWithout(s[..|s| - 1], ok, r)
  }

  lemma {:induction false} DropIs(tags: seq<string>, t: string)
    ensures IsWithout(tags, x => x != t, Drop(tags, t))
  {
    if tags != [] {
      var init, last := tags[..|tags| - 1], tags[|tags| - 1];
      assert tags == init + [last];
      DropIs(init, t);
      DropOneMore(init, last, t);
      if last != t { assert (Drop(init, t) + [last])[..|Drop(init, t)|] == Drop(init, t); }
    }
  }

  lemma {:induction false} DropOneMore(tags: seq<string>, x: string, t: string)
    ensures Drop(tags + [x], t) == if x == t then Drop(tags, t) else Drop(tags, t) + [x]
  {
    if tags == [] {
      assert [x][1..] == [];
    } else {
      assert (tags + [x])[1..] == tags[1..] + [x];
      DropOneMore(tags[1..], x, t);
    }
  }

  lemma {:induction false} WithoutIs(bs: seq<Bookmark>, id: string)
    ensures IsWithout(bs, (b: Bookmark) => b.id != id, Without(bs, id))
  {
    if bs != [] {
      var init, last := bs[..|bs| - 1], bs[|bs| - 1];
      assert bs == init + [last];
      WithoutIs(init, id);
      WithoutOneMore(init, last, id);
      if last.id != id { assert (Without(init, id) + [last])[..|Without(init, id)|] == Without(init, id); }
    }
  }

  lemma {:induction false} WithoutOneMore(bs: seq<Bookmark>, b: Bookmark, id: string)
    ensures Without(bs + [b], id) == if b.id == id then Without(bs, id) else Without(bs, id) + [b]
  {
    hide Without;
    WithoutStep(bs + [b], id);
    WithoutNone(id);
    if bs == [] {
      assert bs + [b] == [b] && [b][1..] == [];
    } else {
      WithoutStep(bs, id);
      WithoutOneMore(bs[1..], b, id);
      assert (bs + [b])[0] == bs[0] && (bs + [b])[1..] == bs[1..] + [b];
    }
  }

  lemma WithoutNone(id: string)
    ensures Without([], id) == []
  {}

  lemma WithoutStep(bs: seq<Bookmark>, id: string)
    requires bs != []
    ensures Without(bs, id) == if bs[0].id == id then Without(bs[1..], id) else [bs[0]] + Without(bs[1..], id)
  {}

  /** Unfiling takes every mention of the folder's name off the bookmark. */
  lemma UnfileMeans(lower: Lowering, s: Library, id: string, folder: string)
    ensures var (r, reply) := Step(lower, s, Unfile(id, folder)); var f := Norm(lower, folder);
            && (reply == NotFound <==> IsAbsent(s, id)) && (reply == NotFound ==> r == s)
            && (reply != NotFound ==>
                  reply == Done && exists i: nat :: IsAt(s, id, i) && IsUnfiledAt(s, r, i, f))
  {
    hide Norm, IsWithout;
    FindIs(s, id);
    var i, f := Find(s.bookmarks, id), Norm(lower, folder);
    if i < |s.bookmarks| {
      DropIs(s.bookmarks[i].tags, f);
      assert IsUnfiledAt(s, Step(lower, s, Unfile(id, folder)).0, i, f);
    }
  }

  ghost predicate IsUnfiledAt(s: Library, r: Library, i: nat, f: string) {
    && OnlyAt(s, r, i)
    && var b, c := s.bookmarks[i], r.bookmarks[i];
       && c.id == b.id && c.url == b.url && c.pinned == b.pinned && c.order == b.order
       && IsWithout(b.tags, x => x != f, c.tags)
  }

  /** A folder with no name is refused, a new one is listed last, a listed one stays. */
  lemma CreateMeans(lower: Lowering, s: Library, folder: string)
    ensures var (r, reply) := Step(lower, s, CreateFolder(folder)); var f := Norm(lower, folder);
            && r.bookmarks == s.bookmarks && r.writes == s.writes
            && (f == "" ==> r == s && reply == BadArgs) && (f != "" ==> reply == Done)
            && (f != "" && f in s.folders ==> r == s)
            && (f != "" && f !in s.folders ==> r.folders == s.folders + [f])
  {
    hide Norm;
  }

  /** Deleting takes every bookmark with the id out and leaves the rest in order. */
  lemma DeleteMeans(lower: Lowering, s: Library, id: string)
    ensures var (r, reply) := Step(lower, s, Delete(id));
            && reply == Done && r.folders == s.folders && r.writes == s.writes
            && IsWithout(s.bookmarks, (b: Bookmark) => b.id != id, r.bookmarks)
  {
    WithoutIs(s.bookmarks, id);
  }

  lemma DeleteFolderMeans(lower: Lowering, s: Library, folder: string)
    ensures var (r, reply) := Step(lower, s, DeleteFolder(folder)); var f := Norm(lower, folder);
            && reply == Done && r.writes == s.writes && IsWithout(s.folders, x => x != f, r.folders)
            && |r.bookmarks| == |s.bookmarks|
            && forall i :: 0 <= i < |s.bookmarks| ==>
                 && IsWithout(s.bookmarks[i].tags, x => x != f, r.bookmarks[i].tags)
                 && r.bookmarks[i] == s.bookmarks[i].(tags := r.bookmarks[i].tags)
  {
    hide Norm, IsWithout;
    var f := Norm(lower, folder);
    DropIs(s.folders, f);
    forall i | 0 <= i < |s.bookmarks| ensures IsWithout(s.bookmarks[i].tags, x => x != f, Drop(s.bookmarks[i].tags, f)) {
      DropIs(s.bookmarks[i].tags, f);
    }
  }

  /** Deleting all leaves no bookmark and no folder; looking changes nothing. */
  lemma ClearAndLookMean(lower: Lowering, s: Library)
    ensures Step(lower, s, DeleteAll) == (Library([], [], s.writes), Done)
    ensures Step(lower, s, Look) == (s, Done)
  {}

  /** A list is accepted exactly when it has no repeats and names the pinned bookmarks,
      as many as there are, and no others; then the write is counted. */
  lemma ReorderIff(lower: Lowering, s: Library, ids: Option<seq<string>>)
    requires Sound(s)
    ensures var (r, reply) := Step(lower, s, Reorder(ids));
            && (reply == Done <==> ids.Some? && NamesThePinned(s, ids.value))
            && (reply != Done ==> reply == BadArgs && r == s)
            && (reply == Done ==> r.writes == s.writes + 1 && r.folders == s.folders)
  {
    if ids.Some? {
      if ReorderOk(s.bookmarks, ids.value) {
        AcceptedIsPermutation(s.bookmarks, ids.value);
        PermutationNames(s, ids.value);
      }
      if NamesThePinned(s, ids.value) { NamingIsOk(s, ids.value); }
    }
  }

  ghost predicate NamesThePinned(s: Library, ids: seq<string>) {
    && (forall i, j :: 0 <= i < j < |ids| ==> ids[i] != ids[j])
    && (forall b :: b in s.bookmarks && b.pinned ==> b.id in ids)
    && (forall id :: id in ids ==> exists b :: b in s.bookmarks && b.pinned && b.id == id)
  }

  lemma PermutationNames(s: Library, ids: seq<string>)
    requires SetOf(ids) == PinnedIds(s.bookmarks) && forall i, j :: 0 <= i < j < |ids| ==> ids[i] != ids[j]
    ensures NamesThePinned(s, ids)
  {
    forall b | b in s.bookmarks && b.pinned ensures b.id in ids { assert b.id in PinnedIds(s.bookmarks); }
    forall id | id in ids ensures exists b :: b in s.bookmarks && b.pinned && b.id == id { assert id in SetOf(ids); }
  }

  lemma NamingIsOk(s: Library, ids: seq<string>)
    requires Sound(s) && NamesThePinned(s, ids)
    ensures ReorderOk(s.bookmarks, ids)
  {
    PinnedCount(s.bookmarks);
    CountDistinct(ids);
    assert SetOf(ids) == PinnedIds(s.bookmarks);
  }

  lemma {:induction false} CountDistinct(ids: seq<string>)
    requires forall i, j :: 0 <= i < j < |ids| ==> ids[i] != ids[j]
    ensures |SetOf(ids)| == |ids|
  {
    if ids != [] {
      var init, last := ids[..|ids| - 1], ids[|ids| - 1];
      CountDistinct(init);
      assert last !in init;
      assert SetOf(ids) == SetOf(init) + {last} by { assert ids == init + [last]; }
    }
  }

  // ---- names of folders --------------------------------------------------

  lemma SpaceIff(c: char)
    ensures IsSpace(c) <==>
            c as int in {9, 10, 11, 12, 13, 32, 160, 5760, 8192, 8193, 8194, 8195, 8196, 8197, 8198, 8199, 8200, 8201,
                         8202, 8232, 8233, 8239, 8287, 12288, 65279}
  {}

  /** Trimming takes off blanks at both ends and nothing else. */
  lemma {:induction false} TrimMeans(s: string) returns (front: string, back: string)
    ensures s == front + Trim(s) + back
    ensures (forall c :: c in front ==> IsSpace(c)) && (forall c :: c in back ==> IsSpace(c))
    ensures Trim(s) == "" || (!IsSpace(Trim(s)[0]) && !IsSpace(Trim(s)[|Trim(s)| - 1]))
    decreases |s|
  {
    hide IsSpace;
    if s != "" && IsSpace(s[0]) {
      front, back := TrimMeans(s[1..]);
      front := [s[0]] + front;
      assert s == [s[0]] + s[1..];
    } else if s != "" && IsSpace(s[|s| - 1]) {
      front, back := TrimMeans(s[..|s| - 1]);
      back := back + [s[|s| - 1]];
      assert s == s[..|s| - 1] + [s[|s| - 1]];
    } else {
      front, back := "", "";
    }
  }

  /** A name is trimmed, cut to forty characters, lowercased, and trimmed again. */
  lemma NormMeans(lower: Lowering, raw: string)
    ensures var t := Trim(raw);
            Norm(lower, raw) == Trim(lower(if |t| <= 40 then t else t[..40]))
  {}
}
