/** The DOM stub's tree: child lists and parent links changed in place by the
    moves the chrome makes. */
module DomTree {

  // ---- child lists -------------------------------------------------------

  /** `indexOf`: the first place x stands, or the length when it does not. */
  function IndexOf<T(==)>(s: seq<T>, x: T): (i: nat)
    ensures i <= |s| && (i < |s| <==> x in s) && (i < |s| ==> s[i] == x)
    ensures forall k :: 0 <= k < i ==> s[k] != x
  {
    if s == [] then 0
    else if s[0] == x then 0
    else
      assert x in s ==> x in s[1..];
      IndexOf(s[1..], x) + 1
  }

  /** The list with the first occurrence of x taken out. */
  function Without<T(==)>(s: seq<T>, x: T): seq<T> {
    var i := IndexOf(s, x);
    if i < |s| then s[..i] + s[i + 1..] else s
  }

  /** The list with x put directly before ref, or at the end when ref is not there. */
  function Placed<T(==)>(s: seq<T>, x: T, ref: T): seq<T> {
    var i := IndexOf(s, ref);
    s[..i] + [x] + s[i..]
  }

  ghost predicate Distinct<T>(s: seq<T>) {
    forall i, j :: 0 <= i < j < |s| ==> s[i] != s[j]
  }

  /** a stands before b. */
  ghost predicate Before<T(!new)>(s: seq<T>, a: T, b: T) {
    exists i, j :: 0 <= i < j < |s| && s[i] == a && s[j] == b
  }

  lemma WithoutIsGone<T>(s: seq<T>, x: T)
    requires Distinct(s)
    ensures Distinct(Without(s, x)) && x !in Without(s, x)
    ensures forall y :: y in Without(s, x) <==> y in s && y != x
  {
    var i := IndexOf(s, x);
    var w := Without(s, x);
    if i < |s| {
      forall y | y in s && y != x ensures y in w {
        var k :| 0 <= k < |s| && s[k] == y;
        assert if k < i then w[k] == y else w[k - 1] == y;
      }
    }
  }

  /** Where an element of the list stands once x is gone. */
  function Shift<T(==)>(s: seq<T>, x: T, k: nat): int {
    if k < IndexOf(s, x) then k else k - 1
  }

  lemma WithoutShifts<T>(s: seq<T>, x: T, k: nat)
    requires Distinct(s) && k < |s| && s[k] != x
    ensures 0 <= Shift(s, x, k) < |Without(s, x)| || x !in s
    ensures x in s ==> Without(s, x)[Shift(s, x, k)] == s[k]
  {}

  lemma StandBefore<T(!new)>(s: seq<T>, i: nat, j: nat)
    requires i < j < |s|
    ensures Before(s, s[i], s[j])
  {}

  /** Taking a node out keeps the relative order of all others. */
  lemma WithoutKeepsOrder<T(!new)>(s: seq<T>, x: T, a: T, b: T)
    requires Distinct(s) && a != x && b != x
    ensures Before(Without(s, x), a, b) <==> Before(s, a, b)
  {
    if x in s {
      if Before(s, a, b) { WithoutKeepsBefore(s, x, a, b); }
      if Before(Without(s, x), a, b) { WithoutAddsNoBefore(s, x, a, b); }
    }
  }

  lemma WithoutKeepsBefore<T(!new)>(s: seq<T>, x: T, a: T, b: T)
    requires Distinct(s) && x in s && a != x && b != x && Before(s, a, b)
    ensures Before(Without(s, x), a, b)
  {
    var i, j :| 0 <= i < j < |s| && s[i] == a && s[j] == b;
    WithoutShifts(s, x, i);
    WithoutShifts(s, x, j);
    StandBefore(Without(s, x), Shift(s, x, i), Shift(s, x, j));
  }

  lemma WithoutAddsNoBefore<T(!new)>(s: seq<T>, x: T, a: T, b: T)
    requires x in s && Before(Without(s, x), a, b)
    ensures Before(s, a, b)
  {
    var w, at := Without(s, x), IndexOf(s, x);
    var i, j :| 0 <= i < j < |w| && w[i] == a && w[j] == b;
    StandBefore(s, Up(i, at), Up(j, at));
  }

  /** Where position k moves when one more stands at `at`. */
  function Up(k: nat, at: nat): nat { if k < at then k else k + 1 }

  function Down(k: nat, at: nat): int { if k < at then k else k - 1 }

  /** The list with x put at position at. */
  lemma PutAt<T>(s: seq<T>, x: T, at: nat, p: seq<T>)
    requires at <= |s| && p == s[..at] + [x] + s[at..]
    ensures |p| == |s| + 1
    ensures forall k :: 0 <= k < |p| ==> p[k] == if k == at then x else s[Down(k, at)]
    ensures forall k :: 0 <= k < |s| ==> s[k] == p[Up(k, at)]
  {}

  lemma PutIsDistinct<T>(s: seq<T>, x: T, at: nat, p: seq<T>)
    requires at <= |s| && p == s[..at] + [x] + s[at..] && Distinct(s) && x !in s
    ensures Distinct(p) && forall y :: y in p <==> y in s || y == x
  {
    PutAt(s, x, at, p);
    forall i, j | 0 <= i < j < |p| ensures p[i] != p[j] {
      if i != at && j != at { assert s[Down(i, at)] != s[Down(j, at)]; }
    }
    forall y ensures y in p <==> y in s || y == x { PutAdds(s, x, at, p, y); }
  }

  lemma PutAdds<T>(s: seq<T>, x: T, at: nat, p: seq<T>, y: T)
    requires at <= |s| && p == s[..at] + [x] + s[at..]
    ensures y in p <==> y in s || y == x
  {
    assert y in s <==> y in s[..at] || y in s[at..] by { assert s == s[..at] + s[at..]; }
  }

  /** Putting a node in keeps the relative order of all others. */
  lemma PutKeepsOrder<T(!new)>(s: seq<T>, x: T, at: nat, p: seq<T>, a: T, b: T)
    requires at <= |s| && p == s[..at] + [x] + s[at..] && a != x && b != x
    ensures Before(p, a, b) <==> Before(s, a, b)
  {
    hide Before;
    PutAt(s, x, at, p);
    if Before(s, a, b) { PutKeepsBefore(s, at, p, a, b); }
    if Before(p, a, b) { PutAddsNoBefore(s, x, at, p, a, b); }
  }

  lemma PutKeepsBefore<T(!new)>(s: seq<T>, at: nat, p: seq<T>, a: T, b: T)
    requires |p| == |s| + 1 && Before(s, a, b)
    requires forall k :: 0 <= k < |s| ==> s[k] == p[Up(k, at)]
    ensures Before(p, a, b)
  {
    var i, j :| 0 <= i < j < |s| && s[i] == a && s[j] == b;
    StandBefore(p, Up(i, at), Up(j, at));
  }

  lemma PutAddsNoBefore<T(!new)>(s: seq<T>, x: T, at: nat, p: seq<T>, a: T, b: T)
    requires |p| == |s| + 1 && at <= |s| && a != x && b != x && Before(p, a, b)
    requires forall k :: 0 <= k < |p| ==> p[k] == if k == at then x else s[Down(k, at)]
    ensures Before(s, a, b)
  {
    var i, j :| 0 <= i < j < |p| && p[i] == a && p[j] == b;
    StandBefore(s, Down(i, at), Down(j, at));
  }

  /** A moved node ends up directly before a reference that is there, else last. */
  lemma PlacedBeforeReference<T>(s: seq<T>, x: T, ref: T)
    ensures var i := IndexOf(s, ref); var p := Placed(s, x, ref);
            |p| == |s| + 1 && p[i] == x && (ref in s ==> i + 1 < |p| && p[i + 1] == ref) &&
            (ref !in s ==> p == s + [x])
  {
    PutAt(s, x, IndexOf(s, ref), Placed(s, x, ref));
    if ref !in s { assert s[..|s|] + [x] + s[|s|..] == s + [x]; }
  }

  /** A move within one list keeps the relative order of all other children,
      whether the node goes before a reference or to the end. */
  lemma MoveBeforeKeepsOrder<T(!new)>(s: seq<T>, x: T, ref: T, a: T, b: T)
    requires Distinct(s) && a != x && b != x
    ensures Before(Placed(Without(s, x), x, ref), a, b) <==> Before(s, a, b)
  {
    var w := Without(s, x);
    WithoutKeepsOrder(s, x, a, b);
    PutKeepsOrder(w, x, IndexOf(w, ref), Placed(w, x, ref), a, b);
  }

  lemma MoveLastKeepsOrder<T(!new)>(s: seq<T>, x: T, a: T, b: T)
    requires Distinct(s) && a != x && b != x
    ensures Before(Without(s, x) + [x], a, b) <==> Before(s, a, b)
  {
    var w := Without(s, x);
    var p := w + [x];
    WithoutKeepsOrder(s, x, a, b);
    assert p == w[..|w|] + [x] + w[|w|..];
    PutKeepsOrder(w, x, |w|, p, a, b);
  }

  // ---- elements ----------------------------------------------------------

  class Element {
    var children: seq<Element>
    /** Null stands for the placeholder a fresh element starts with. */
    var parentNode: Element?
    var text: seq<string>

    constructor ()
      ensures children == [] && parentNode == null && text == []
    {
      children, parentNode, text := [], null, [];
    }

    /** Takes the node out of its parent's list; its parent link stays. */
    method Detach(ghost all: set<Element>)
      requires this in all && TreeOk(all)
      modifies all`children
      ensures TreeOk(all)
      ensures forall n :: n in all ==> n.children == Without(old(n.children), this)
      ensures forall n :: n in all ==> this !in n.children
    {
      forall n | n in all ensures Distinct(n.children) {}
      NowhereElse(all, this);
      if parentNode != null {
        WithoutIsGone(parentNode.children, this);
        var at := IndexOf(parentNode.children, this);
        if at < |parentNode.children| {
          parentNode.children := parentNode.children[..at] + parentNode.children[at + 1..];
        }
      }
    }

    /** Makes a detached node a child, in the list as given. */
    method Adopt(c: Element, cs: seq<Element>, ghost all: set<Element>)
      requires this in all && c in all && TreeOk(all)
      requires forall n :: n in all ==> c !in n.children
      requires Distinct(cs) && forall y :: y in cs <==> y in children || y == c
      modifies this`children, c`parentNode
      ensures TreeOk(all) && children == cs && c.parentNode == this
    {
      children := cs;
      c.parentNode := this;
    }

    method AppendChild(c: Element, ghost all: set<Element>) returns (r: Element)
      requires this in all && c in all && TreeOk(all)
      modifies all`children, c`parentNode
      ensures r == c && TreeOk(all) && c.parentNode == this
      ensures children == Without(old(children), c) + [c]
      ensures forall n :: n in all && n != this ==> n.children == Without(old(n.children), c)
      ensures Moved(old(Kids(all)), Kids(all), this, c)
    {
      c.Detach(all);
      assert children + [c] == children[..|children|] + [c] + children[|children|..];
      PutIsDistinct(children, c, |children|, children + [c]);
      Adopt(c, children + [c], all);
      MembersMoved(old(Kids(all)), Kids(all), this, c);
      return c;
    }

    /** A null reference, or one that is not a child after the node has been
        detached, appends: the node itself as reference is such a one. */
    method InsertBefore(c: Element, ref: Element?, ghost all: set<Element>) returns (r: Element)
      requires this in all && c in all && TreeOk(all)
      modifies all`children, c`parentNode
      ensures r == c && TreeOk(all) && c.parentNode == this
      ensures children == if ref == null then Without(old(children), c) + [c]
                          else Placed(Without(old(children), c), c, ref)
      ensures forall n :: n in all && n != this ==> n.children == Without(old(n.children), c)
      ensures Moved(old(Kids(all)), Kids(all), this, c)
    {
      hide Moved, IndexOf;
      c.Detach(all);
      var at := if ref == null then |children| else IndexOf(children, ref);
      var cs := if at == |children| then children + [c] else children[..at] + [c] + children[at..];
      assert cs == children[..at] + [c] + children[at..];
      PutIsDistinct(children, c, at, cs);
      Adopt(c, cs, all);
      MembersMoved(old(Kids(all)), Kids(all), this, c);
      return c;
    }

    /** Takes the node out of whichever list holds it. */
    method RemoveChild(c: Element, ghost all: set<Element>) returns (r: Element)
      requires this in all && c in all && TreeOk(all)
      modifies all`children
      ensures r == c && TreeOk(all)
      ensures forall n :: n in all ==> n.children == Without(old(n.children), c) && c !in n.children
    {
      c.Detach(all);
      return c;
    }

    /** Every string is recorded; only the empty one empties the child list. */
    method SetTextContent(v: string, ghost all: set<Element>)
      requires this in all && TreeOk(all)
      modifies this`children, this`text
      ensures TreeOk(all) && text == old(text) + [v]
      ensures children == if v == "" then [] else old(children)
    {
      text := text + [v];
      if v == "" { children := []; }
    }

    /** Assigns the list and nothing else: the tree stays sound exactly when the
        list is free of repeats and already names this element as parent. */
    method ReplaceChildren(cs: seq<Element>, ghost all: set<Element>)
      requires this in all && TreeOk(all)
      modifies this`children
      ensures children == cs
      ensures TreeOk(all) <==> Distinct(cs) && forall c :: c in cs ==> c in all && c.parentNode == this
    {
      children := cs;
    }
  }

  /** Where insertBefore puts a node: directly before a distinct reference child,
      and last when the reference is the node itself. */
  lemma InsertedBeforeDistinctReference(kids: seq<Element>, c: Element, ref: Element)
    requires Distinct(kids)
    ensures var p := Placed(Without(kids, c), c, ref);
            && (ref != c && ref in kids ==> exists i :: 0 <= i < |p| - 1 && p[i] == c && p[i + 1] == ref)
            && (ref == c || ref !in kids ==> p == Without(kids, c) + [c])
  {
    WithoutIsGone(kids, c);
    var w := Without(kids, c);
    PlacedBeforeReference(w, c, ref);
    var i := IndexOf(w, ref);
    assert Placed(w, c, ref)[i] == c;
  }

  /** Every child list is free of repeats and its members name its owner as
      their parent. */
  ghost predicate TreeOk(all: set<Element>)
    reads all
  {
    forall p :: p in all ==>
      && Distinct(p.children)
      && (p.parentNode != null ==> p.parentNode in all)
      && forall c :: c in p.children ==> c in all && c.parentNode == p
  }

  /** A node stands in at most one list, at most once, its parent's. */
  lemma OnePlace(all: set<Element>, n: Element, p: Element, q: Element, i: nat, j: nat)
    requires TreeOk(all) && p in all && q in all
    requires i < |p.children| && p.children[i] == n && j < |q.children| && q.children[j] == n
    ensures p == q == n.parentNode && i == j
  {}

  /** Outside its parent's list a node is in no list. */
  lemma NowhereElse(all: set<Element>, n: Element)
    requires TreeOk(all) && n in all
    ensures forall p :: p in all && p != n.parentNode ==> n !in p.children && Without(p.children, n) == p.children
  {}

  // ---- cycles ------------------------------------------------------------

  /** The child lists of all elements, as a value. */
  type Graph = map<Element, seq<Element>>

  ghost function Kids(all: set<Element>): Graph
    reads all
  {
    map n | n in all :: n.children
  }

  ghost predicate Edge(g: Graph, a: Element, b: Element) { a in g && b in g[a] }

  /** A walk down child links from a to b. */
  ghost predicate IsPath(g: Graph, path: seq<Element>, a: Element, b: Element) {
    && |path| >= 1 && path[0] == a && path[|path| - 1] == b
    && forall i :: 0 <= i < |path| - 1 ==> Edge(g, path[i], path[i + 1])
  }

  ghost predicate IsCycle(g: Graph, path: seq<Element>) {
    |path| >= 2 && IsPath(g, path, path[0], path[0])
  }

  /** c has been moved under p: only the links into c have changed. */
  ghost predicate Moved(g: Graph, h: Graph, p: Element, c: Element) {
    && g.Keys == h.Keys && p in g && c in g
    && (forall a, b :: a in g && b in g[a] ==> b in g)
    && (forall a, b :: a in h && b in h[a] ==> b in h)
    && forall a, b :: a in g && b in g ==> (Edge(h, a, b) <==> (if b == c then a == p else Edge(g, a, b)))
  }

  lemma MembersMoved(g: Graph, h: Graph, p: Element, c: Element)
    requires g.Keys == h.Keys && p in g && c in g
    requires forall n :: n in g ==> Distinct(g[n])
    requires forall n, y :: n in g && y in g[n] ==> y in g
    requires forall n :: n in g && n != p ==> h[n] == Without(g[n], c)
    requires forall y :: y in h[p] <==> y in Without(g[p], c) || y == c
    ensures Moved(g, h, p, c)
  {
    forall n | n in g ensures forall y :: y in Without(g[n], c) <==> y in g[n] && y != c {
      WithoutIsGone(g[n], c);
    }
  }

  lemma {:induction false} PathsCompose(g: Graph, s: seq<Element>, t: seq<Element>, a: Element, b: Element, c: Element)
    requires IsPath(g, s, a, b) && IsPath(g, t, b, c)
    ensures IsPath(g, s + t[1..], a, c)
  {
    var r := s + t[1..];
    forall i | 0 <= i < |r| - 1 ensures Edge(g, r[i], r[i + 1]) {
      if i >= |s| - 1 { assert Edge(g, t[i - |s| + 1], t[i - |s| + 2]); }
    }
  }

  lemma PathPart(g: Graph, s: seq<Element>, i: nat, j: nat)
    requires i <= j < |s| && forall k :: 0 <= k < |s| - 1 ==> Edge(g, s[k], s[k + 1])
    ensures IsPath(g, s[i..j + 1], s[i], s[j])
  {
    var r := s[i..j + 1];
    forall k | 0 <= k < |r| - 1 ensures Edge(g, r[k], r[k + 1]) {
      assert Edge(g, s[i + k], s[i + k + 1]);
    }
  }

  /** A walk that enters c only at its start uses no changed link. */
  lemma PathSurvives(g: Graph, h: Graph, p: Element, c: Element, path: seq<Element>, a: Element, b: Element)
    requires Moved(g, h, p, c) && |path| >= 1 && path[0] in g && c !in path[1..]
    ensures IsPath(g, path, a, b) <==> IsPath(h, path, a, b)
  {
    forall i | 0 <= i < |path| - 1 ensures Edge(g, path[i], path[i + 1]) <==> Edge(h, path[i], path[i + 1]) {
      assert path[i + 1] == path[1..][i];
    }
  }

  /** From a walk out of c, the part after its last visit to c. */
  lemma {:induction false} LastExit(g: Graph, path: seq<Element>, c: Element, b: Element) returns (r: seq<Element>)
    requires IsPath(g, path, c, b)
    ensures IsPath(g, r, c, b) && c !in r[1..] && (c != b ==> |r| >= 2)
    decreases |path|
  {
    if c in path[1..] {
      var k :| 0 <= k < |path| - 1 && path[1..][k] == c;
      PathPart(g, path, k + 1, |path| - 1);
      r := LastExit(g, path[k + 1..|path|], c, b);
    } else {
      r := path;
    }
  }

  lemma AncestorMakesCycle(g: Graph, h: Graph, p: Element, c: Element, s: seq<Element>) returns (t: seq<Element>)
    requires Moved(g, h, p, c) && IsPath(g, s, c, p)
    ensures IsCycle(h, t)
  {
    var r := LastExit(g, s, c, p);
    PathSurvives(g, h, p, c, r, c, p);
    assert Edge(h, p, c);
    assert IsPath(h, [p, c], p, c);
    PathsCompose(h, r, [p, c], c, p, c);
    t := r + [p, c][1..];
  }

  /** A cycle through c enters c from p, so the rest of it leads from c to p. */
  lemma CycleThroughMoved(g: Graph, h: Graph, p: Element, c: Element, s: seq<Element>, k: nat)
    returns (r: seq<Element>)
    requires Moved(g, h, p, c) && IsCycle(h, s) && 0 < k < |s| && s[k] == c
    ensures IsPath(g, r, c, p)
  {
    assert Edge(h, s[k - 1], s[k]);
    PathPart(h, s, k, |s| - 1);
    PathPart(h, s, 0, k - 1);
    PathsCompose(h, s[k..|s|], s[0..k], c, s[0], p);
    r := LastExit(h, s[k..|s|] + s[0..k][1..], c, p);
    PathSurvives(g, h, p, c, r, c, p);
  }

  lemma CycleElsewhereWasThere(g: Graph, h: Graph, p: Element, c: Element, s: seq<Element>)
    requires Moved(g, h, p, c) && IsCycle(h, s) && c !in s[1..]
    ensures IsCycle(g, s)
  {
    assert Edge(h, s[0], s[1]);
    PathSurvives(g, h, p, c, s, s[0], s[0]);
  }

  /** The standard refuses to move a node under itself or a descendant; the stub
      does not, and such a move is exactly what makes a cycle. */
  lemma CycleIffAncestor(g: Graph, h: Graph, p: Element, c: Element)
    requires Moved(g, h, p, c) && p in h && forall s :: !IsCycle(g, s)
    ensures (exists s :: IsCycle(h, s)) <==> exists s :: IsPath(g, s, c, p)
  {
    hide Moved, IsPath;
    if s :| IsPath(g, s, c, p) { var t := AncestorMakesCycle(g, h, p, c, s); }
    if s :| IsCycle(h, s) {
      if c in s[1..] {
        var k :| 0 <= k < |s| - 1 && s[1..][k] == c;
        var r := CycleThroughMoved(g, h, p, c, s, k + 1);
      } else {
        CycleElsewhereWasThere(g, h, p, c, s);
      }
    }
  }

  // ---- sequences of operations -------------------------------------------

  datatype Command =
    | Append(parent: Element, c: Element)
    | Insert(parent: Element, c: Element, ref: Element?)
    | Remove(parent: Element, c: Element)
    | Text(target: Element, v: string)

  ghost predicate Within(cmd: Command, all: set<Element>) {
    match cmd
    case Append(p, c) => p in all && c in all
    case Insert(p, c, _) => p in all && c in all
    case Remove(p, c) => p in all && c in all
    case Text(t, _) => t in all
  }

  method Perform(cmd: Command, ghost all: set<Element>)
    requires TreeOk(all) && Within(cmd, all)
    modifies all
    ensures TreeOk(all)
    ensures forall n :: n in all && (cmd.Text? || n != cmd.c) ==> n.parentNode == old(n.parentNode)
  {
    match cmd
    case Append(p, c) => var _ := p.AppendChild(c, all);
    case Insert(p, c, ref) => var _ := p.InsertBefore(c, ref, all);
    case Remove(p, c) => var _ := p.RemoveChild(c, all);
    case Text(t, v) => t.SetTextContent(v, all);
  }

  /** Every sequence of moves, removals and text writes keeps the tree sound. */
  method PerformAll(cmds: seq<Command>, ghost all: set<Element>)
    requires TreeOk(all) && forall i :: 0 <= i < |cmds| ==> Within(cmds[i], all)
    modifies all
    ensures TreeOk(all)
  {
    for i := 0 to |cmds|
      invariant TreeOk(all)
    {
      Perform(cmds[i], all);
    }
  }
}
