/** Directory entries and link counts: dirlookup and dirlink (fs.c), sys_link, sys_unlink,
    isdirempty and create (sysfile.c). */
module Links {

  const DIRSIZ := 14

  datatype Kind = Dir | File | Device

  // inum 0 marks a free slot.
  datatype Entry = Entry(inum: nat, name: string)

  const FREE := Entry(0, "")

  datatype Node = Node(kind: Kind, nlink: int, ents: seq<Entry>)

  type Nodes = map<nat, Node>

  // What of a name is stored and compared.
  function Trunc(name: string): string {
    if |name| <= DIRSIZ then name else name[..DIRSIZ]
  }

  // namecmp
  predicate SameName(a: string, b: string) {
    Trunc(a) == Trunc(b)
  }

  // ---- What a link count counts ------------------------------------------------------------------

  /** Slot k of directory d names inode t: under some name, or as the ".." of a directory
      that has not been removed.  (Slot 0 is ".", slot 1 is "..".) */
  predicate Counts(nodes: Nodes, d: nat, k: nat, t: nat) {
    && d in nodes && nodes[d].kind.Dir? && 1 <= k < |nodes[d].ents| && nodes[d].ents[k].inum == t
    && (k == 1 ==> nodes[d].nlink > 0)
  }

  ghost function Refs(nodes: Nodes, t: nat): set<(nat, nat)> {
    set d, k | d in nodes && 0 <= k < |nodes[d].ents| && Counts(nodes, d, k, t) :: (d, k)
  }

  /** nlink is the number of entries naming the inode, and of links being made. */
  ghost predicate CountsOk(nodes: Nodes, pending: multiset<nat>) {
    forall t {:trigger Refs(nodes, t)} :: t in nodes ==> nodes[t].nlink == |Refs(nodes, t)| + pending[t]
  }

  // ---- The shape of the tree ----------------------------------------------------------------------

  function ParentOf(n: Node): nat {
    if |n.ents| >= 2 then n.ents[1].inum else 0
  }

  ghost predicate NoDuplicates(ents: seq<Entry>) {
    forall i, j :: 0 <= i < j < |ents| && ents[i].inum != 0 && ents[j].inum != 0 ==> !SameName(ents[i].name, ents[j].name)
  }

  // Every directory begins with "." and "..", and no two names in it are the same.
  ghost predicate DirOk(nodes: Nodes, root: nat, d: nat)
    requires d in nodes
  {
    var n := nodes[d];
    && |n.ents| >= 2 && n.ents[0] == Entry(d, ".") && n.ents[1].name == ".." && n.ents[1].inum != 0
    && NoDuplicates(n.ents) && (d == root ==> ParentOf(n) == root)
    && (n.nlink == 0 ==> forall k :: 2 <= k < |n.ents| ==> n.ents[k].inum == 0)
  }

  // A name leads to an inode, and to a directory only from its parent.
  ghost predicate NameOk(nodes: Nodes, root: nat, at: map<nat, nat>, d: nat, k: nat)
    requires d in nodes && 2 <= k < |nodes[d].ents|
  {
    var t := nodes[d].ents[k].inum;
    t != 0 ==> t in nodes && (nodes[t].kind.Dir? ==> t != root && ParentOf(nodes[t]) == d && t in at && at[t] == k)
  }

  // A directory in use is named in its parent, which is in use.
  ghost predicate NamedOk(nodes: Nodes, at: map<nat, nat>, c: nat)
    requires c in nodes
  {
    var p := ParentOf(nodes[c]);
    c in at && p in nodes && nodes[p].kind.Dir? && nodes[p].nlink > 0 && 2 <= at[c] < |nodes[p].ents| && nodes[p].ents[at[c]].inum == c
  }

  ghost predicate Tree(nodes: Nodes, root: nat, at: map<nat, nat>) {
    && 0 !in nodes && root in nodes && nodes[root].kind.Dir? && nodes[root].nlink > 0
    && (forall d {:trigger DirOk(nodes, root, d)} :: d in nodes && nodes[d].kind.Dir? ==> DirOk(nodes, root, d))
    && (forall d, k {:trigger NameOk(nodes, root, at, d, k)} :: d in nodes && nodes[d].kind.Dir? && 2 <= k < |nodes[d].ents| ==>
          NameOk(nodes, root, at, d, k))
    && (forall c {:trigger NamedOk(nodes, at, c)} :: c in nodes && nodes[c].kind.Dir? && nodes[c].nlink > 0 && c != root ==>
          NamedOk(nodes, at, c))
  }

  ghost predicate PendingOk(nodes: Nodes, pending: multiset<nat>) {
    forall t :: t in pending ==> t in nodes && !nodes[t].kind.Dir?
  }

  ghost predicate Ok(nodes: Nodes, root: nat, at: map<nat, nat>, pending: multiset<nat>) {
    Tree(nodes, root, at) && CountsOk(nodes, pending) && PendingOk(nodes, pending)
  }

  // ---- How the counts move --------------------------------------------------------------------------

  function PutEntry(ents: seq<Entry>, k: nat, e: Entry): seq<Entry>
    requires k <= |ents|
  {
    if k < |ents| then ents[k := e] else ents + [e]
  }

  function Put(nodes: Nodes, d: nat, k: nat, e: Entry): Nodes
    requires d in nodes && k <= |nodes[d].ents|
  {
    nodes[d := nodes[d].(ents := PutEntry(nodes[d].ents, k, e))]
  }

  // A new name in a free slot.
  lemma RefsAdded(nodes: Nodes, d: nat, k: nat, e: Entry, t: nat)
    requires d in nodes && nodes[d].kind.Dir? && 2 <= k <= |nodes[d].ents| && (k < |nodes[d].ents| ==> nodes[d].ents[k].inum == 0)
    requires t != 0 && e.inum != 0
    ensures Refs(Put(nodes, d, k, e), t) == Refs(nodes, t) + (if t == e.inum then {(d, k)} else {}) && (d, k) !in Refs(nodes, t)
  {
    var nodes' := Put(nodes, d, k, e);
    forall x, y ensures Counts(nodes', x, y, t) <==> Counts(nodes, x, y, t) || (x == d && y == k && t == e.inum) {
    }
  }

  // A name goes.
  lemma RefsCleared(nodes: Nodes, d: nat, k: nat, t: nat)
    requires d in nodes && nodes[d].kind.Dir? && 2 <= k < |nodes[d].ents| && t != 0
    ensures Refs(Put(nodes, d, k, FREE), t) == Refs(nodes, t) - {(d, k)}
    ensures (d, k) in Refs(nodes, t) <==> t == nodes[d].ents[k].inum
  {
    var nodes' := Put(nodes, d, k, FREE);
    forall x, y ensures Counts(nodes', x, y, t) <==> Counts(nodes, x, y, t) && !(x == d && y == k) {
    }
  }

  // A count changes without the directory being removed by it.
  lemma RefsRecounted(nodes: Nodes, x: nat, nlink: int, t: nat)
    requires x in nodes && (nodes[x].kind.Dir? ==> (nlink > 0 <==> nodes[x].nlink > 0))
    ensures Refs(nodes[x := nodes[x].(nlink := nlink)], t) == Refs(nodes, t)
  {
    var nodes' := nodes[x := nodes[x].(nlink := nlink)];
    forall d, k ensures Counts(nodes', d, k, t) <==> Counts(nodes, d, k, t) {
    }
  }

  // A directory is removed: its ".." no longer counts.
  lemma RefsRemoved(nodes: Nodes, x: nat, t: nat)
    requires x in nodes && nodes[x].kind.Dir? && |nodes[x].ents| >= 2 && nodes[x].nlink > 0
    ensures Refs(nodes[x := nodes[x].(nlink := 0)], t) == Refs(nodes, t) - {(x, 1)}
    ensures (x, 1) in Refs(nodes, t) <==> t == ParentOf(nodes[x])
  {
    var nodes' := nodes[x := nodes[x].(nlink := 0)];
    forall d, k ensures Counts(nodes', d, k, t) <==> Counts(nodes, d, k, t) && !(d == x && k == 1) {
    }
  }

  // A new inode; a new directory's ".." counts.
  lemma RefsNew(nodes: Nodes, x: nat, n: Node, t: nat)
    requires x !in nodes && (n.kind.Dir? ==> |n.ents| == 2 && n.nlink > 0) && (!n.kind.Dir? ==> n.ents == [])
    ensures Refs(nodes[x := n], t) == Refs(nodes, t) + (if n.kind.Dir? && ParentOf(n) == t then {(x, 1)} else {}) && (x, 1) !in Refs(nodes, t)
  {
    var nodes' := nodes[x := n];
    forall d, k ensures Counts(nodes', d, k, t) <==> Counts(nodes, d, k, t) || (d == x && k == 1 && n.kind.Dir? && ParentOf(n) == t) {
    }
  }

  // ---- Each change keeps everything ---------------------------------------------------------------------

  // A free slot for a name that is not there yet.
  ghost predicate Fits(n: Node, k: nat, name: string) {
    && 2 <= k <= |n.ents| && (k < |n.ents| ==> n.ents[k].inum == 0)
    && forall i :: 0 <= i < |n.ents| && n.ents[i].inum != 0 ==> !SameName(n.ents[i].name, name)
  }

  // The count of an inode that is not a directory, with as many links under way.
  lemma Recounted(nodes: Nodes, root: nat, at: map<nat, nat>, pending: multiset<nat>, x: nat, nlink: int, pending': multiset<nat>)
    requires Ok(nodes, root, at, pending) && x in nodes && !nodes[x].kind.Dir?
    requires nlink - pending'[x] == nodes[x].nlink - pending[x] && forall t :: t != x ==> pending'[t] == pending[t]
    ensures Ok(nodes[x := nodes[x].(nlink := nlink)], root, at, pending')
  {
    var nodes' := nodes[x := nodes[x].(nlink := nlink)];
    forall t | t in nodes' ensures nodes'[t].nlink == |Refs(nodes', t)| + pending'[t] {
      RefsRecounted(nodes, x, nlink, t);
    }
    TreeRecounted(nodes, root, at, x, nlink);
  }

  lemma TreeRecounted(nodes: Nodes, root: nat, at: map<nat, nat>, x: nat, nlink: int)
    requires Tree(nodes, root, at) && x in nodes && !nodes[x].kind.Dir?
    ensures Tree(nodes[x := nodes[x].(nlink := nlink)], root, at)
  {
    var nodes' := nodes[x := nodes[x].(nlink := nlink)];
    forall d | d in nodes' && nodes'[d].kind.Dir? ensures DirOk(nodes', root, d) {
      assert DirOk(nodes, root, d);
    }
    forall d, k | d in nodes' && nodes'[d].kind.Dir? && 2 <= k < |nodes'[d].ents| ensures NameOk(nodes', root, at, d, k) {
      assert NameOk(nodes, root, at, d, k);
    }
    forall c | c in nodes' && nodes'[c].kind.Dir? && nodes'[c].nlink > 0 && c != root ensures NamedOk(nodes', at, c) {
      assert NamedOk(nodes, at, c);
    }
  }

  // A link under way becomes an entry.
  lemma Linked(nodes: Nodes, root: nat, at: map<nat, nat>, pending: multiset<nat>, d: nat, k: nat, e: Entry)
    requires Ok(nodes, root, at, pending) && d in nodes && nodes[d].kind.Dir? && nodes[d].nlink > 0 && Fits(nodes[d], k, e.name)
    requires e.inum in pending
    ensures Ok(Put(nodes, d, k, e), root, at, pending - multiset{e.inum})
  {
    LinkedCounts(nodes, pending, d, k, e);
    TreeAdded(nodes, root, at, d, k, e);
  }

  lemma LinkedCounts(nodes: Nodes, pending: multiset<nat>, d: nat, k: nat, e: Entry)
    requires CountsOk(nodes, pending) && 0 !in nodes && d in nodes && nodes[d].kind.Dir? && Fits(nodes[d], k, e.name)
    requires e.inum in pending && e.inum in nodes
    ensures CountsOk(Put(nodes, d, k, e), pending - multiset{e.inum})
  {
    var nodes', pending' := Put(nodes, d, k, e), pending - multiset{e.inum};
    forall t | t in nodes' ensures nodes'[t].nlink == |Refs(nodes', t)| + pending'[t] {
      RefsAdded(nodes, d, k, e, t);
    }
  }

  lemma TreeAdded(nodes: Nodes, root: nat, at: map<nat, nat>, d: nat, k: nat, e: Entry)
    requires Tree(nodes, root, at) && d in nodes && nodes[d].kind.Dir? && nodes[d].nlink > 0 && Fits(nodes[d], k, e.name)
    requires e.inum in nodes && !nodes[e.inum].kind.Dir?
    ensures Tree(Put(nodes, d, k, e), root, at)
  {
    var nodes' := Put(nodes, d, k, e);
    forall x | x in nodes' && nodes'[x].kind.Dir? ensures DirOk(nodes', root, x) {
      assert DirOk(nodes, root, x);
    }
    forall x, j | x in nodes' && nodes'[x].kind.Dir? && 2 <= j < |nodes'[x].ents| ensures NameOk(nodes', root, at, x, j) {
      assert !(x == d && j == k) ==> NameOk(nodes, root, at, x, j);
    }
    forall c | c in nodes' && nodes'[c].kind.Dir? && nodes'[c].nlink > 0 && c != root ensures NamedOk(nodes', at, c) {
      assert NamedOk(nodes, at, c);
    }
  }

  // The name of an inode that is not a directory goes; its count has yet to follow.
  lemma Cleared(nodes: Nodes, root: nat, at: map<nat, nat>, pending: multiset<nat>, d: nat, k: nat, x: nat)
    requires Ok(nodes, root, at, pending) && d in nodes && nodes[d].kind.Dir? && 2 <= k < |nodes[d].ents|
    requires x == nodes[d].ents[k].inum && x != 0 && x in nodes && !nodes[x].kind.Dir?
    ensures nodes[x].nlink >= 1 && Ok(Put(nodes, d, k, FREE), root, at, pending + multiset{x})
  {
    var nodes' := Put(nodes, d, k, FREE);
    RefsCleared(nodes, d, k, x);
    forall t | t in nodes' ensures nodes'[t].nlink == |Refs(nodes', t)| + (pending + multiset{x})[t] {
      RefsCleared(nodes, d, k, t);
    }
    assert nodes[x].nlink == |Refs(nodes, x)| + pending[x];
    TreeCleared(nodes, root, at, d, k);
  }

  lemma TreeCleared(nodes: Nodes, root: nat, at: map<nat, nat>, d: nat, k: nat)
    requires Tree(nodes, root, at) && d in nodes && nodes[d].kind.Dir? && 2 <= k < |nodes[d].ents|
    requires nodes[d].ents[k].inum in nodes && !nodes[nodes[d].ents[k].inum].kind.Dir?
    ensures Tree(Put(nodes, d, k, FREE), root, at)
  {
    var nodes' := Put(nodes, d, k, FREE);
    forall y | y in nodes' && nodes'[y].kind.Dir? ensures DirOk(nodes', root, y) {
      assert DirOk(nodes, root, y);
    }
    forall y, j | y in nodes' && nodes'[y].kind.Dir? && 2 <= j < |nodes'[y].ents| ensures NameOk(nodes', root, at, y, j) {
      assert NameOk(nodes, root, at, y, j);
    }
    forall c | c in nodes' && nodes'[c].kind.Dir? && nodes'[c].nlink > 0 && c != root ensures NamedOk(nodes', at, c) {
      assert NamedOk(nodes, at, c);
    }
  }

  // ---- Directories ----

  ghost predicate Empty(n: Node) {
    forall k :: 2 <= k < |n.ents| ==> n.ents[k].inum == 0
  }

  /** An empty directory is named once and counted once. */
  lemma EmptyCountedOnce(nodes: Nodes, root: nat, at: map<nat, nat>, pending: multiset<nat>, d: nat, k: nat, x: nat)
    requires Ok(nodes, root, at, pending) && d in nodes && nodes[d].kind.Dir? && 2 <= k < |nodes[d].ents|
    requires x == nodes[d].ents[k].inum && x != 0 && x in nodes && nodes[x].kind.Dir? && Empty(nodes[x])
    ensures Refs(nodes, x) == {(d, k)} && nodes[x].nlink == 1 && x != root && ParentOf(nodes[x]) == d && x != d && nodes[d].nlink > 0
  {
    assert NameOk(nodes, root, at, d, k) && DirOk(nodes, root, x) && DirOk(nodes, root, d);
    assert DirOk(nodes, root, root);
    forall y | y in nodes && nodes[y].kind.Dir? && nodes[y].nlink > 0 && y != root ensures ParentOf(nodes[y]) != x {
      assert NamedOk(nodes, at, y);
    }
    forall y, j | y in nodes && nodes[y].kind.Dir? && 2 <= j < |nodes[y].ents| && nodes[y].ents[j].inum == x ensures (y, j) == (d, k) {
      assert NameOk(nodes, root, at, y, j);
    }
    RefsCleared(nodes, d, k, x);
    assert Refs(nodes, x) == {(d, k)} && nodes[d].nlink == |Refs(nodes, d)| + pending[d];
  }

  // Slot k of d no longer names directory x, x is removed, and d counts one less.
  function Rmdir(nodes: Nodes, d: nat, k: nat, x: nat): Nodes
    requires d in nodes && x in nodes && k < |nodes[d].ents|
  {
    var cleared := Put(nodes, d, k, FREE);
    var lowered := cleared[d := cleared[d].(nlink := cleared[d].nlink - 1)];
    lowered[x := lowered[x].(nlink := 0)]
  }

  lemma Rmdired(nodes: Nodes, root: nat, at: map<nat, nat>, pending: multiset<nat>, d: nat, k: nat, x: nat)
    requires Ok(nodes, root, at, pending) && d in nodes && nodes[d].kind.Dir? && 2 <= k < |nodes[d].ents|
    requires x == nodes[d].ents[k].inum && x != 0 && x in nodes && nodes[x].kind.Dir? && Empty(nodes[x])
    ensures Ok(Rmdir(nodes, d, k, x), root, at, pending)
  {
    EmptyCountedOnce(nodes, root, at, pending, d, k, x);
    StaysCounted(nodes, root, at, pending, d, k, x);
    RmdirTree(nodes, root, at, d, k, x);
    RmdirCounts(nodes, pending, d, k, x);
  }

  // Slot k of d is free; what it named counts one less, as does d when that was a directory.
  function Without(nodes: Nodes, d: nat, k: nat, x: nat): Nodes
    requires d in nodes && x in nodes && k < |nodes[d].ents|
  {
    if nodes[x].kind.Dir? then Rmdir(nodes, d, k, x)
    else Put(nodes, d, k, FREE)[x := Put(nodes, d, k, FREE)[x].(nlink := nodes[x].nlink - 1)]
  }

  // That slot held the name, and a directory was empty.
  ghost predicate Removed(nodes: Nodes, nodes': Nodes, d: nat, k: nat, name: string) {
    && d in nodes && k < |nodes[d].ents| && SameName(nodes[d].ents[k].name, name)
    && var x := nodes[d].ents[k].inum;
       x in nodes && (nodes[x].kind.Dir? ==> Empty(nodes[x])) && nodes' == Without(nodes, d, k, x)
  }

  lemma Unlinked(nodes: Nodes, root: nat, at: map<nat, nat>, pending: multiset<nat>, d: nat, k: nat, x: nat)
    requires Ok(nodes, root, at, pending) && d in nodes && nodes[d].kind.Dir? && 2 <= k < |nodes[d].ents|
    requires x == nodes[d].ents[k].inum && x != 0 && x in nodes && (nodes[x].kind.Dir? ==> Empty(nodes[x]))
    ensures nodes[x].nlink >= 1 && x != d && (nodes[x].kind.Dir? ==> nodes[x].nlink == 1)
    ensures Ok(Without(nodes, d, k, x), root, at, pending)
  {
    if nodes[x].kind.Dir? {
      EmptyCountedOnce(nodes, root, at, pending, d, k, x);
      Rmdired(nodes, root, at, pending, d, k, x);
    } else {
      Cleared(nodes, root, at, pending, d, k, x);
      Recounted(Put(nodes, d, k, FREE), root, at, pending + multiset{x}, x, nodes[x].nlink - 1, pending);
    }
  }

  // The parent is still named, or is the root, after the removal.
  lemma StaysCounted(nodes: Nodes, root: nat, at: map<nat, nat>, pending: multiset<nat>, d: nat, k: nat, x: nat)
    requires Ok(nodes, root, at, pending) && d in nodes && nodes[d].kind.Dir? && nodes[d].nlink > 0 && 2 <= k < |nodes[d].ents|
    requires x == nodes[d].ents[k].inum && x in nodes && nodes[x].kind.Dir? && x != root && x != d && nodes[x].nlink > 0
    requires ParentOf(nodes[x]) == d
    ensures nodes[d].nlink > 1
  {
    assert DirOk(nodes, root, x) && DirOk(nodes, root, d);
    RefsRemoved(nodes, x, d);
    RefsRemoved(nodes, d, d);
    assert (x, 1) in Refs(nodes, d);
    if d == root {
      assert (d, 1) in Refs(nodes, d);
      assert {(x, 1), (d, 1)} <= Refs(nodes, d);
      Two(Refs(nodes, d), (x, 1), (d, 1));
    } else {
      assert NamedOk(nodes, at, d);
      var p := ParentOf(nodes[d]);
      RefsCleared(nodes, p, at[d], d);
      Two(Refs(nodes, d), (x, 1), (p, at[d]));
    }
  }

  lemma Two(s: set<(nat, nat)>, a: (nat, nat), b: (nat, nat))
    requires a in s && b in s && a != b
    ensures |s| >= 2
  {
    assert |s - {a}| == |s| - 1 && b in s - {a};
  }

  lemma RmdirCounts(nodes: Nodes, pending: multiset<nat>, d: nat, k: nat, x: nat)
    requires CountsOk(nodes, pending) && 0 !in nodes && d in nodes && nodes[d].kind.Dir? && nodes[d].nlink > 1 && 2 <= k < |nodes[d].ents|
    requires x == nodes[d].ents[k].inum && x in nodes && nodes[x].kind.Dir? && x != d && nodes[x].nlink == 1 && |nodes[x].ents| >= 2
    requires ParentOf(nodes[x]) == d && Refs(nodes, x) == {(d, k)}
    ensures CountsOk(Rmdir(nodes, d, k, x), pending)
  {
    var nodes' := Rmdir(nodes, d, k, x);
    forall t | t in nodes' ensures nodes'[t].nlink == |Refs(nodes', t)| + pending[t] {
      RefsRmdired(nodes, d, k, x, t);
      assert nodes[t].nlink == |Refs(nodes, t)| + pending[t];
    }
  }

  // The entry goes, and the ".." of the removed directory counts no more.
  lemma RefsRmdired(nodes: Nodes, d: nat, k: nat, x: nat, t: nat)
    requires d in nodes && nodes[d].kind.Dir? && nodes[d].nlink > 1 && 2 <= k < |nodes[d].ents| && t != 0
    requires x == nodes[d].ents[k].inum && x in nodes && nodes[x].kind.Dir? && x != d && nodes[x].nlink == 1 && |nodes[x].ents| >= 2
    ensures Refs(Rmdir(nodes, d, k, x), t) == Refs(nodes, t) - {(d, k)} - {(x, 1)}
    ensures (d, k) in Refs(nodes, t) <==> t == x
    ensures (x, 1) in Refs(nodes, t) <==> t == ParentOf(nodes[x])
  {
    var cleared := Put(nodes, d, k, FREE);
    var lowered := cleared[d := cleared[d].(nlink := cleared[d].nlink - 1)];
    RefsCleared(nodes, d, k, t);
    RefsRecounted(cleared, d, cleared[d].nlink - 1, t);
    RefsRemoved(lowered, x, t);
  }

  lemma RmdirTree(nodes: Nodes, root: nat, at: map<nat, nat>, d: nat, k: nat, x: nat)
    requires Tree(nodes, root, at) && d in nodes && nodes[d].kind.Dir? && nodes[d].nlink > 1 && 2 <= k < |nodes[d].ents|
    requires x == nodes[d].ents[k].inum && x in nodes && nodes[x].kind.Dir? && Empty(nodes[x]) && x != d && x != root
    ensures Tree(Rmdir(nodes, d, k, x), root, at)
  {
    var nodes' := Rmdir(nodes, d, k, x);
    forall y | y in nodes' && nodes'[y].kind.Dir? ensures DirOk(nodes', root, y) {
      assert DirOk(nodes, root, y);
    }
    forall y, j | y in nodes' && nodes'[y].kind.Dir? && 2 <= j < |nodes'[y].ents| ensures NameOk(nodes', root, at, y, j) {
      assert NameOk(nodes, root, at, y, j);
    }
    forall c | c in nodes' && nodes'[c].kind.Dir? && nodes'[c].nlink > 0 && c != root ensures NamedOk(nodes', at, c) {
      assert NamedOk(nodes, at, c);
    }
  }

  // A new inode x of a kind, with its entry in slot k of d.
  function NewNode(kind: Kind, d: nat, x: nat): Node {
    Node(kind, 1, if kind.Dir? then [Entry(x, "."), Entry(d, "..")] else [])
  }

  function Made(nodes: Nodes, d: nat, k: nat, x: nat, name: string, kind: Kind): Nodes
    requires d in nodes && k <= |nodes[d].ents| && x !in nodes
  {
    var named := Put(nodes[x := NewNode(kind, d, x)], d, k, Entry(x, name));
    if kind.Dir? then named[d := named[d].(nlink := named[d].nlink + 1)] else named
  }

  lemma Created(nodes: Nodes, root: nat, at: map<nat, nat>, pending: multiset<nat>, d: nat, k: nat, x: nat, name: string, kind: Kind)
    requires Ok(nodes, root, at, pending) && d in nodes && nodes[d].kind.Dir? && nodes[d].nlink > 0 && Fits(nodes[d], k, name)
    requires x !in nodes && x != 0
    ensures Ok(Made(nodes, d, k, x, name, kind), root, if kind.Dir? then at[x := k] else at, pending)
  {
    CreatedCounts(nodes, root, at, pending, d, k, x, name, kind);
    CreatedTree(nodes, root, at, d, k, x, name, kind);
  }

  lemma CreatedCounts(nodes: Nodes, root: nat, at: map<nat, nat>, pending: multiset<nat>, d: nat, k: nat, x: nat, name: string, kind: Kind)
    requires Ok(nodes, root, at, pending) && d in nodes && nodes[d].kind.Dir? && nodes[d].nlink > 0 && Fits(nodes[d], k, name)
    requires x !in nodes && x != 0
    ensures CountsOk(Made(nodes, d, k, x, name, kind), pending)
  {
    var nodes' := Made(nodes, d, k, x, name, kind);
    Unnamed(nodes, root, at, pending, x);
    forall t | t in nodes' ensures nodes'[t].nlink == |Refs(nodes', t)| + pending[t] {
      RefsMade(nodes, d, k, x, name, kind, t);
      assert t != x ==> nodes[t].nlink == |Refs(nodes, t)| + pending[t];
    }
  }

  // The new name counts, and so does the ".." of a new directory.
  lemma RefsMade(nodes: Nodes, d: nat, k: nat, x: nat, name: string, kind: Kind, t: nat)
    requires d in nodes && nodes[d].kind.Dir? && nodes[d].nlink > 0 && Fits(nodes[d], k, name) && x !in nodes && x != 0 && t != 0
    ensures Refs(Made(nodes, d, k, x, name, kind), t) == Refs(nodes, t) + (if t == x then {(d, k)} else {}) + (if kind.Dir? && t == d then {(x, 1)} else {})
    ensures (d, k) !in Refs(nodes, t) && (x, 1) !in Refs(nodes, t)
  {
    var nodes1 := nodes[x := NewNode(kind, d, x)];
    var named := Put(nodes1, d, k, Entry(x, name));
    RefsNew(nodes, x, NewNode(kind, d, x), t);
    RefsAdded(nodes1, d, k, Entry(x, name), t);
    RefsRecounted(named, d, named[d].nlink + 1, t);
  }

  // Nothing names an inode that does not exist.
  lemma Unnamed(nodes: Nodes, root: nat, at: map<nat, nat>, pending: multiset<nat>, x: nat)
    requires Ok(nodes, root, at, pending) && x !in nodes && x != 0
    ensures Refs(nodes, x) == {} && pending[x] == 0
  {
    forall d, k | d in nodes && 0 <= k < |nodes[d].ents| ensures !Counts(nodes, d, k, x) {
      TargetExists(nodes, root, at, d, k);
    }
  }

  lemma TargetExists(nodes: Nodes, root: nat, at: map<nat, nat>, d: nat, k: nat)
    requires Tree(nodes, root, at) && d in nodes && k < |nodes[d].ents|
    ensures var t := nodes[d].ents[k].inum; t == 0 || !Counts(nodes, d, k, t) || t in nodes
  {
    if nodes[d].kind.Dir? {
      assert DirOk(nodes, root, d);
      if k >= 2 {
        assert NameOk(nodes, root, at, d, k);
      } else if k == 1 && nodes[d].nlink > 0 && d != root {
        assert NamedOk(nodes, at, d);
      }
    }
  }

  lemma CreatedTree(nodes: Nodes, root: nat, at: map<nat, nat>, d: nat, k: nat, x: nat, name: string, kind: Kind)
    requires Tree(nodes, root, at) && d in nodes && nodes[d].kind.Dir? && nodes[d].nlink > 0 && Fits(nodes[d], k, name)
    requires x !in nodes && x != 0
    ensures Tree(Made(nodes, d, k, x, name, kind), root, if kind.Dir? then at[x := k] else at)
  {
    var nodes', at' := Made(nodes, d, k, x, name, kind), if kind.Dir? then at[x := k] else at;
    forall y | y in nodes' && nodes'[y].kind.Dir? ensures DirOk(nodes', root, y) {
      CreatedDir(nodes, root, at, d, k, x, name, kind, y);
    }
    forall y, j | y in nodes' && nodes'[y].kind.Dir? && 2 <= j < |nodes'[y].ents| ensures NameOk(nodes', root, at', y, j) {
      CreatedName(nodes, root, at, d, k, x, name, kind, y, j);
    }
    forall c | c in nodes' && nodes'[c].kind.Dir? && nodes'[c].nlink > 0 && c != root ensures NamedOk(nodes', at', c) {
      CreatedNamed(nodes, root, at, d, k, x, name, kind, c);
    }
  }

  lemma CreatedDir(nodes: Nodes, root: nat, at: map<nat, nat>, d: nat, k: nat, x: nat, name: string, kind: Kind, y: nat)
    requires Tree(nodes, root, at) && d in nodes && nodes[d].kind.Dir? && nodes[d].nlink > 0 && Fits(nodes[d], k, name) && x !in nodes && x != 0
    requires var nodes' := Made(nodes, d, k, x, name, kind); y in nodes' && nodes'[y].kind.Dir?
    ensures DirOk(Made(nodes, d, k, x, name, kind), root, y)
  {
    assert y != x ==> DirOk(nodes, root, y);
  }

  lemma CreatedName(nodes: Nodes, root: nat, at: map<nat, nat>, d: nat, k: nat, x: nat, name: string, kind: Kind, y: nat, j: nat)
    requires Tree(nodes, root, at) && d in nodes && nodes[d].kind.Dir? && nodes[d].nlink > 0 && Fits(nodes[d], k, name) && x !in nodes && x != 0
    requires var nodes' := Made(nodes, d, k, x, name, kind); y in nodes' && nodes'[y].kind.Dir? && 2 <= j < |nodes'[y].ents|
    ensures NameOk(Made(nodes, d, k, x, name, kind), root, if kind.Dir? then at[x := k] else at, y, j)
  {
    assert y != x && !(y == d && j == k) ==> NameOk(nodes, root, at, y, j);
  }

  lemma CreatedNamed(nodes: Nodes, root: nat, at: map<nat, nat>, d: nat, k: nat, x: nat, name: string, kind: Kind, c: nat)
    requires Tree(nodes, root, at) && d in nodes && nodes[d].kind.Dir? && nodes[d].nlink > 0 && Fits(nodes[d], k, name) && x !in nodes && x != 0
    requires var nodes' := Made(nodes, d, k, x, name, kind); c in nodes' && nodes'[c].kind.Dir? && nodes'[c].nlink > 0 && c != root
    ensures NamedOk(Made(nodes, d, k, x, name, kind), if kind.Dir? then at[x := k] else at, c)
  {
    assert c != x ==> NamedOk(nodes, at, c);
  }

  // An inode without links goes.
  lemma Reclaimed(nodes: Nodes, root: nat, at: map<nat, nat>, pending: multiset<nat>, x: nat)
    requires Ok(nodes, root, at, pending) && x in nodes && nodes[x].nlink == 0
    ensures Ok(nodes - {x}, root, at, pending)
  {
    assert Refs(nodes, x) == {} && pending[x] == 0;
    assert nodes[x].kind.Dir? ==> DirOk(nodes, root, x);
    ReclaimedCounts(nodes, pending, x);
    ReclaimedTree(nodes, root, at, x);
  }

  lemma ReclaimedCounts(nodes: Nodes, pending: multiset<nat>, x: nat)
    requires CountsOk(nodes, pending) && 0 !in nodes && x in nodes && nodes[x].nlink == 0 && (nodes[x].kind.Dir? ==> Empty(nodes[x]))
    ensures CountsOk(nodes - {x}, pending)
  {
    var nodes' := nodes - {x};
    forall t | t in nodes' ensures nodes'[t].nlink == |Refs(nodes', t)| + pending[t] {
      forall d, k ensures Counts(nodes', d, k, t) <==> Counts(nodes, d, k, t) {
      }
      assert Refs(nodes', t) == Refs(nodes, t);
    }
  }

  lemma ReclaimedTree(nodes: Nodes, root: nat, at: map<nat, nat>, x: nat)
    requires Tree(nodes, root, at) && x in nodes && nodes[x].nlink == 0 && Refs(nodes, x) == {}
    ensures Tree(nodes - {x}, root, at)
  {
    var nodes' := nodes - {x};
    forall y | y in nodes' && nodes'[y].kind.Dir? ensures DirOk(nodes', root, y) {
      assert DirOk(nodes, root, y);
    }
    forall y, j | y in nodes' && nodes'[y].kind.Dir? && 2 <= j < |nodes'[y].ents| ensures NameOk(nodes', root, at, y, j) {
      assert NameOk(nodes, root, at, y, j);
      assert Counts(nodes, y, j, x) ==> (y, j) in Refs(nodes, x);
    }
    forall c | c in nodes' && nodes'[c].kind.Dir? && nodes'[c].nlink > 0 && c != root ensures NamedOk(nodes', at, c) {
      assert NamedOk(nodes, at, c);
    }
  }

  // What mkfs makes.
  function Initial(root: nat): Nodes {
    map[root := Node(Dir, 1, [Entry(root, "."), Entry(root, "..")])]
  }

  lemma InitialOk(root: nat)
    requires root != 0
    ensures Ok(Initial(root), root, map[], multiset{})
  {
    var n := Initial(root);
    assert Refs(n, root) == {(root, 1)} by {
      assert Counts(n, root, 1, root);
    }
    assert DirOk(n, root, root);
  }

  // ---- The system calls -------------------------------------------------------------------------------

  // What create returns: an inode that was there, a new one, or none.  Panicked stands for
  // ilock's panic on an inode that has been freed, which only ".." of a removed directory
  // can still name.
  datatype Outcome = Existing(ip: nat) | New(ip: nat) | Failed | Panicked

  // What create does with a name that is there.
  function Reuse(nodes: Nodes, ip: nat, kind: Kind): Outcome {
    if ip !in nodes then Panicked else if kind.File? && !nodes[ip].kind.Dir? then Existing(ip) else Failed
  }

  // Slot k has the name.
  ghost predicate Names(ents: seq<Entry>, k: nat, name: string) {
    k < |ents| && ents[k].inum != 0 && SameName(ents[k].name, name)
  }

  // dirlink has a slot to write to.
  ghost predicate Slot(ents: seq<Entry>, room: bool) {
    room || exists i :: 0 <= i < |ents| && ents[i].inum == 0
  }

  // Where dirlink writes: the first free slot, or past the end.
  ghost predicate FirstFree(ents: seq<Entry>, k: nat) {
    k <= |ents| && (k < |ents| ==> ents[k].inum == 0) && forall i :: 0 <= i < k ==> ents[i].inum != 0
  }

  ghost predicate Absent(ents: seq<Entry>, name: string) {
    forall i :: 0 <= i < |ents| && ents[i].inum != 0 ==> !SameName(ents[i].name, name)
  }

  lemma AbsentNames(ents: seq<Entry>, name: string)
    ensures Absent(ents, name) <==> forall i: nat :: !Names(ents, i, name)
  {
    if !Absent(ents, name) {
      var i :| 0 <= i < |ents| && ents[i].inum != 0 && SameName(ents[i].name, name);
      assert Names(ents, i, name);
    }
  }

  lemma NamesOnce(ents: seq<Entry>, k: nat, name: string)
    requires NoDuplicates(ents) && Names(ents, k, name)
    ensures forall i: nat :: Names(ents, i, name) ==> i == k
  {
  }

  // sys_unlink may go ahead.
  ghost predicate Unlinkable(nodes: Nodes, dp: nat, name: string)
    requires dp in nodes
  {
    && !SameName(name, ".") && !SameName(name, "..")
    && exists k: nat :: Names(nodes[dp].ents, k, name) && Removable(nodes, nodes[dp].ents[k].inum)
  }

  ghost predicate Removable(nodes: Nodes, ip: nat) {
    ip in nodes && (nodes[ip].kind.Dir? ==> Empty(nodes[ip]))
  }

  lemma FirstFreeFits(nodes: Nodes, root: nat, at: map<nat, nat>, d: nat, k: nat, name: string)
    requires Tree(nodes, root, at) && d in nodes && nodes[d].kind.Dir? && FirstFree(nodes[d].ents, k) && Absent(nodes[d].ents, name)
    ensures Fits(nodes[d], k, name)
  {
    assert DirOk(nodes, root, d);
    assert d != 0;
  }

  class FileTree {
    const root: nat
    var nodes: Nodes
    ghost var at: map<nat, nat>
    // The inodes whose count sys_link has raised without having made the entry yet.
    ghost var pending: multiset<nat>

    ghost predicate Valid()
      reads this
    {
      Ok(nodes, root, at, pending)
    }

    // mkfs: the root directory, which is its own parent.
    constructor (root: nat)
      requires root != 0
      ensures Valid() && this.root == root && nodes == Initial(root) && pending == multiset{}
    {
      this.root := root;
      nodes := Initial(root);
      at, pending := map[], multiset{};
      InitialOk(root);
    }

    // dirlookup
    method DirLookup(d: nat, name: string) returns (found: bool, k: nat)
      requires d in nodes && nodes[d].kind.Dir?
      ensures if found then Names(nodes[d].ents, k, name) else Absent(nodes[d].ents, name)
    {
      k := 0;
      while k < |nodes[d].ents|
        invariant k <= |nodes[d].ents| && Absent(nodes[d].ents[..k], name)
      {
        var de := nodes[d].ents[k];
        if de.inum != 0 && SameName(name, de.name) {
          return true, k;
        }
        assert nodes[d].ents[..k + 1] == nodes[d].ents[..k] + [de];
        k := k + 1;
      }
      assert nodes[d].ents[..k] == nodes[d].ents;
      found := false;
    }

    /** dirlink: fails when the name is there, or when the directory would have to grow and
        cannot; otherwise the entry goes into the first free slot. */
    method DirLink(d: nat, name: string, inum: nat, room: bool) returns (ok: bool, k: nat)
      requires d in nodes && nodes[d].kind.Dir?
      modifies `nodes
      ensures ok <==> Absent(old(nodes)[d].ents, name) && Slot(old(nodes)[d].ents, room)
      ensures !ok ==> nodes == old(nodes)
      ensures ok ==> FirstFree(old(nodes)[d].ents, k) && nodes == Put(old(nodes), d, k, Entry(inum, Trunc(name)))
    {
      var found;
      found, k := DirLookup(d, name);
      if found {
        return false, 0;
      }
      k := 0;
      while k < |nodes[d].ents| && nodes[d].ents[k].inum != 0
        invariant k <= |nodes[d].ents| && forall i :: 0 <= i < k ==> nodes[d].ents[i].inum != 0
      {
        k := k + 1;
      }
      if k == |nodes[d].ents| && !room {
        return false, k;
      }
      nodes := Put(nodes, d, k, Entry(inum, Trunc(name)));
      ok := true;
    }

    /** The first half of sys_link: a directory is refused; anything else is counted once
        more before its entry exists. */
    method LinkStart(ip: nat) returns (ok: bool)
      requires Valid() && ip in nodes
      modifies `nodes, `pending
      ensures Valid() && (ok <==> !old(nodes)[ip].kind.Dir?)
      ensures ok ==> nodes == old(nodes)[ip := old(nodes)[ip].(nlink := old(nodes)[ip].nlink + 1)] && pending == old(pending) + multiset{ip}
      ensures !ok ==> nodes == old(nodes) && pending == old(pending)
    {
      ok := !nodes[ip].kind.Dir?;
      if ok {
        Recounted(nodes, root, at, pending, ip, nodes[ip].nlink + 1, pending + multiset{ip});
        nodes := nodes[ip := nodes[ip].(nlink := nodes[ip].nlink + 1)];
        pending := pending + multiset{ip};
      }
    }

    /** The second half, whatever happened in between: the entry is made, or the count goes
        back.  `found` says whether the parent directory was found.  Everything stays right
        unless the entry was made in a directory that had been removed. */
    method LinkFinish(ip: nat, dp: nat, name: string, found: bool, room: bool) returns (ok: bool)
      requires Valid() && ip in pending && (found ==> dp in nodes && nodes[dp].kind.Dir?)
      modifies `nodes, `pending
      ensures pending == old(pending) - multiset{ip}
      ensures ok <==> found && Absent(old(nodes)[dp].ents, name) && Slot(old(nodes)[dp].ents, room)
      ensures if ok then old(nodes)[dp].nlink > 0 ==> Valid() else Valid()
      ensures ok ==> exists k :: FirstFree(old(nodes)[dp].ents, k) && nodes == Put(old(nodes), dp, k, Entry(ip, Trunc(name)))
      ensures !ok ==> ip in old(nodes) && nodes == old(nodes)[ip := old(nodes)[ip].(nlink := old(nodes)[ip].nlink - 1)]
    {
      ok := false;
      if found {
        ok := LinkEntry(ip, dp, name, room);
      }
      if !ok {
        LinkUndo(ip);
      }
      pending := pending - multiset{ip};
    }

    method LinkUndo(ip: nat)
      requires Valid() && ip in pending
      modifies `nodes
      ensures ip in old(nodes) && nodes == old(nodes)[ip := old(nodes)[ip].(nlink := old(nodes)[ip].nlink - 1)]
      ensures Ok(nodes, root, at, pending - multiset{ip})
    {
      Recounted(nodes, root, at, pending, ip, nodes[ip].nlink - 1, pending - multiset{ip});
      nodes := nodes[ip := nodes[ip].(nlink := nodes[ip].nlink - 1)];
    }

    method LinkEntry(ip: nat, dp: nat, name: string, room: bool) returns (ok: bool)
      requires Valid() && ip in pending && dp in nodes && nodes[dp].kind.Dir?
      modifies `nodes
      ensures ok <==> Absent(old(nodes)[dp].ents, name) && Slot(old(nodes)[dp].ents, room)
      ensures !ok ==> nodes == old(nodes)
      ensures ok ==> exists k :: FirstFree(old(nodes)[dp].ents, k) && nodes == Put(old(nodes), dp, k, Entry(ip, Trunc(name)))
      ensures ok && old(nodes)[dp].nlink > 0 ==> Ok(nodes, root, at, pending - multiset{ip})
    {
      var k;
      ok, k := DirLink(dp, name, ip, room);
      if ok && old(nodes)[dp].nlink > 0 {
        FirstFreeFits(old(nodes), root, at, dp, k, name);
        assert Fits(old(nodes)[dp], k, Trunc(name));
        Linked(old(nodes), root, at, pending, dp, k, Entry(ip, Trunc(name)));
      }
    }

    // isdirempty
    method IsDirEmpty(d: nat) returns (b: bool)
      requires d in nodes
      ensures b <==> Empty(nodes[d])
    {
      var k := 2;
      while k < |nodes[d].ents|
        invariant forall i :: 2 <= i < k && i < |nodes[d].ents| ==> nodes[d].ents[i].inum == 0
      {
        if nodes[d].ents[k].inum != 0 {
          return false;
        }
        k := k + 1;
      }
      b := true;
    }

    /** sys_unlink: the name goes and the count of its inode follows; a directory goes only
        when it is empty, and its parent then counts one ".." less.  The count was at least
        one, so there is no panic. */
    method Unlink(dp: nat, name: string) returns (ok: bool)
      requires Valid() && dp in nodes && nodes[dp].kind.Dir?
      modifies `nodes
      ensures Valid() && (ok <==> Unlinkable(old(nodes), dp, name))
      ensures !ok ==> nodes == old(nodes)
      ensures ok ==> exists k :: 2 <= k < |old(nodes)[dp].ents| && Removed(old(nodes), nodes, dp, k, name)
    {
      ok := false;
      if SameName(name, ".") || SameName(name, "..") {
        return;
      }
      var found, k := DirLookup(dp, name);
      if !found {
        AbsentNames(nodes[dp].ents, name);
        return;
      }
      assert DirOk(nodes, root, dp);
      assert NameOk(nodes, root, at, dp, k);
      var ip := nodes[dp].ents[k].inum;
      NamesOnce(nodes[dp].ents, k, name);
      if nodes[ip].kind.Dir? {
        var empty := IsDirEmpty(ip);
        if !empty {
          return;
        }
      }
      Unlinked(nodes, root, at, pending, dp, k, ip);
      assert nodes[ip].nlink >= 1;
      RemoveName(dp, k, ip);
      ok := true;
      assert Removed(old(nodes), nodes, dp, k, name);
    }

    // The writes of sys_unlink, once it may go ahead.
    method RemoveName(dp: nat, k: nat, ip: nat)
      requires dp in nodes && k < |nodes[dp].ents| && ip in nodes && ip != dp
      requires nodes[ip].kind.Dir? ==> nodes[ip].nlink == 1
      modifies `nodes
      ensures nodes == Without(old(nodes), dp, k, ip)
    {
      nodes := Put(nodes, dp, k, FREE);
      if nodes[ip].kind.Dir? {
        nodes := nodes[dp := nodes[dp].(nlink := nodes[dp].nlink - 1)];
      }
      nodes := nodes[ip := nodes[ip].(nlink := nodes[ip].nlink - 1)];
    }

    // create's new inode, with "." and ".." when it is a directory.
    method FillNode(dp: nat, x: nat, kind: Kind, room: bool) returns (ok: bool)
      requires x in nodes && nodes[x] == Node(kind, 1, []) && x != 0
      modifies `nodes
      ensures ok <==> kind.Dir? ==> room
      ensures ok ==> nodes == old(nodes)[x := NewNode(kind, dp, x)]
      ensures !ok ==> x in nodes && nodes - {x} == old(nodes) - {x}
    {
      ok := true;
      if kind.Dir? {
        var k;
        ok, k := DirLink(x, ".", x, room);
        if ok {
          assert nodes[x].ents == [Entry(x, ".")];
          LinkParent(dp, x);
        }
      }
    }

    // The second entry of a new directory; the block for the first has room for it.
    method LinkParent(dp: nat, x: nat)
      requires x in nodes && nodes[x].kind.Dir? && nodes[x].ents == [Entry(x, ".")] && x != 0
      modifies `nodes
      ensures nodes == old(nodes)[x := old(nodes)[x].(ents := [Entry(x, "."), Entry(dp, "..")])]
    {
      assert !SameName(".", "..");
      var ok, k := DirLink(x, "..", dp, true);
      assert ok && k == 1;
      assert PutEntry([Entry(x, ".")], 1, Entry(dp, "..")) == [Entry(x, "."), Entry(dp, "..")];
    }

    /** create.  A name that is there yields a file or device when a file was asked for and
        nothing otherwise; a new inode, if there is one and room for all entries, gets count
        1, its entry, and as a directory "." and ".." and one more count for its parent.
        Whatever fails, nothing is left behind.  Everything stays right unless the directory
        had been removed. */
    method Create(dp: nat, name: string, kind: Kind, x: nat, free: bool, room1: bool, room2: bool) returns (r: Outcome)
      requires Valid() && dp in nodes && nodes[dp].kind.Dir? && x !in nodes && x != 0
      modifies `nodes, `at
      ensures Absent(old(nodes)[dp].ents, name) ==>
                r == if free && (kind.Dir? ==> room1) && Slot(old(nodes)[dp].ents, room2) then New(x) else Failed
      ensures forall k: nat :: Names(old(nodes)[dp].ents, k, name) ==> r == Reuse(old(nodes), old(nodes)[dp].ents[k].inum, kind)
      ensures if r.New? then old(nodes)[dp].nlink > 0 ==> Valid() else Valid() && nodes == old(nodes)
      ensures r.New? ==> exists k :: Fits(old(nodes)[dp], k, name) && nodes == Made(old(nodes), dp, k, x, Trunc(name), kind)
    {
      var found, k := DirLookup(dp, name);
      if found {
        assert DirOk(nodes, root, dp);
        NamesOnce(nodes[dp].ents, k, name);
        var ip := nodes[dp].ents[k].inum;
        AbsentNames(nodes[dp].ents, name);
        return if ip !in nodes then Panicked else if kind.File? && (nodes[ip].kind.File? || nodes[ip].kind.Device?) then Existing(ip) else Failed;
      }
      AbsentNames(nodes[dp].ents, name);
      if !free {
        return Failed;
      }
      var ok;
      ok, k := MakeNode(dp, name, kind, x, room1, room2);
      if !ok {
        return Failed;
      }
      FirstFreeFits(old(nodes), root, at, dp, k, name);
      assert Fits(old(nodes)[dp], k, Trunc(name));
      if old(nodes)[dp].nlink > 0 {
        Created(old(nodes), root, at, pending, dp, k, x, Trunc(name), kind);
      }
      if kind.Dir? {
        nodes := nodes[dp := nodes[dp].(nlink := nodes[dp].nlink + 1)];
        at := at[x := k];
      }
      assert nodes == Made(old(nodes), dp, k, x, Trunc(name), kind);
      r := New(x);
    }

    // A new inode and its entry, or neither.
    method MakeNode(dp: nat, name: string, kind: Kind, x: nat, room1: bool, room2: bool) returns (ok: bool, k: nat)
      requires 0 !in nodes && dp in nodes && nodes[dp].kind.Dir? && x !in nodes && x != 0
      modifies `nodes
      ensures ok <==> (kind.Dir? ==> room1) && Absent(old(nodes)[dp].ents, name) && Slot(old(nodes)[dp].ents, room2)
      ensures !ok ==> nodes == old(nodes)
      ensures ok ==> FirstFree(old(nodes)[dp].ents, k)
      ensures ok ==> nodes == Put(old(nodes)[x := NewNode(kind, dp, x)], dp, k, Entry(x, Trunc(name)))
    {
      nodes := nodes[x := Node(kind, 1, [])];
      k := 0;
      ok := FillNode(dp, x, kind, room1);
      if ok {
        ok, k := DirLink(dp, name, x, room2);
      }
      if !ok {
        // ip->nlink = 0, and iunlockput frees the inode.
        nodes := nodes - {x};
        assert nodes == old(nodes);
      }
    }

    // iput of the last reference to an inode without links.
    method Reclaim(ip: nat)
      requires Valid() && ip in nodes && nodes[ip].nlink == 0
      modifies `nodes
      ensures Valid() && nodes == old(nodes) - {ip}
    {
      Reclaimed(nodes, root, at, pending, ip);
      nodes := nodes - {ip};
    }
  }

  // ---- Creating in a directory that has been removed ------------------------------------------------

  /** create keeps the counts and the tree right exactly when the directory it creates in
      has not been removed. */
  lemma CreateNeedsLive(nodes: Nodes, root: nat, at: map<nat, nat>, pending: multiset<nat>, d: nat, k: nat, x: nat, name: string, kind: Kind)
    requires Ok(nodes, root, at, pending) && d in nodes && nodes[d].kind.Dir? && Fits(nodes[d], k, name) && x !in nodes && x != 0
    ensures nodes[d].nlink > 0 <==> exists at' :: Ok(Made(nodes, d, k, x, name, kind), root, at', pending)
  {
    var nodes' := Made(nodes, d, k, x, name, kind);
    assert nodes[d].nlink == |Refs(nodes, d)| + pending[d];
    if nodes[d].nlink > 0 {
      Created(nodes, root, at, pending, d, k, x, name, kind);
    } else {
      assert Refs(nodes, d) == {} && d != root;
      StaysUnnamed(nodes, d, k, x, name, kind);
      assert nodes'[d].ents[k].inum == x;
      forall at' ensures !Ok(nodes', root, at', pending) {
        assert Ok(nodes', root, at', pending) ==> DirOk(nodes', root, d);
        assert Ok(nodes', root, at', pending) && kind.Dir? ==> NamedOk(nodes', at', d);
      }
    }
  }

  lemma StaysUnnamed(nodes: Nodes, d: nat, k: nat, x: nat, name: string, kind: Kind)
    requires d in nodes && nodes[d].kind.Dir? && 2 <= k <= |nodes[d].ents| && x !in nodes && Refs(nodes, d) == {}
    ensures var nodes' := Made(nodes, d, k, x, name, kind);
            forall p, j :: p in nodes' && nodes'[p].kind.Dir? && 2 <= j < |nodes'[p].ents| ==> nodes'[p].ents[j].inum != d
  {
    var nodes' := Made(nodes, d, k, x, name, kind);
    forall p, j | p in nodes' && nodes'[p].kind.Dir? && 2 <= j < |nodes'[p].ents| ensures nodes'[p].ents[j].inum != d {
      assert p in nodes && j < |nodes[p].ents| ==> (Counts(nodes, p, j, d) <==> (p, j) in Refs(nodes, d));
    }
  }

  /** sys_link keeps them right exactly when the directory of the new name has not been
      removed. */
  lemma LinkNeedsLive(nodes: Nodes, root: nat, at: map<nat, nat>, pending: multiset<nat>, d: nat, k: nat, e: Entry)
    requires Ok(nodes, root, at, pending) && d in nodes && nodes[d].kind.Dir? && Fits(nodes[d], k, e.name) && e.inum in pending
    ensures nodes[d].nlink > 0 <==> exists at' :: Ok(Put(nodes, d, k, e), root, at', pending - multiset{e.inum})
  {
    var nodes', pending' := Put(nodes, d, k, e), pending - multiset{e.inum};
    if nodes[d].nlink > 0 {
      Linked(nodes, root, at, pending, d, k, e);
    } else {
      assert nodes[d].nlink == |Refs(nodes, d)| + pending[d];
      assert e.inum in nodes && nodes'[d].ents[k].inum != 0;
      forall at' ensures !Ok(nodes', root, at', pending') {
        assert Ok(nodes', root, at', pending') ==> DirOk(nodes', root, d);
      }
    }
  }

  /** In every removed directory: once it is freed, what create made there has a count and no
      name. */
  lemma CreateLosesCount(nodes: Nodes, root: nat, at: map<nat, nat>, pending: multiset<nat>, d: nat, k: nat, x: nat, name: string, kind: Kind)
    requires Ok(nodes, root, at, pending) && d in nodes && nodes[d].kind.Dir? && Fits(nodes[d], k, name) && x !in nodes && x != 0
    requires nodes[d].nlink == 0
    ensures var after := Made(nodes, d, k, x, name, kind) - {d};
            x in after && after[x].nlink == 1 && Refs(after, x) == {} && !CountsOk(after, pending)
  {
    var after := Made(nodes, d, k, x, name, kind) - {d};
    forall p: nat, j: nat ensures !Counts(after, p, j, x) {
      if p in nodes && p != d && nodes[p].kind.Dir? && 1 <= j < |nodes[p].ents| {
        assert DirOk(nodes, root, p);
        assert if j >= 2 then NameOk(nodes, root, at, p, j) else p == root || nodes[p].nlink <= 0 || NamedOk(nodes, at, p);
      }
    }
    assert Refs(after, x) == {};
    assert x !in pending;
  }

  /** And what sys_link named there has a count too many. */
  lemma LinkLosesCount(nodes: Nodes, root: nat, at: map<nat, nat>, pending: multiset<nat>, d: nat, k: nat, e: Entry)
    requires Ok(nodes, root, at, pending) && d in nodes && nodes[d].kind.Dir? && Fits(nodes[d], k, e.name) && e.inum in pending
    requires nodes[d].nlink == 0
    ensures var after, pending' := Put(nodes, d, k, e) - {d}, pending - multiset{e.inum};
            e.inum in after && after[e.inum].nlink == |Refs(after, e.inum)| + pending'[e.inum] + 1 && !CountsOk(after, pending')
  {
    var after := Put(nodes, d, k, e) - {d};
    assert DirOk(nodes, root, d);
    forall p, j ensures Counts(after, p, j, e.inum) <==> Counts(nodes, p, j, e.inum) {
    }
    assert Refs(after, e.inum) == Refs(nodes, e.inum);
  }

  // The file system after mkdir d, creating f and removing d again, in the root directory 1.
  function AfterRmdir(): Nodes {
    Rmdir(Made(Made(Initial(1), 1, 2, 2, "d", Dir), 1, 3, 3, "f", File), 1, 2, 2)
  }

  lemma AfterRmdirOk()
    ensures Ok(AfterRmdir(), 1, map[2 := 2], multiset{})
    ensures AfterRmdir() == map[1 := Node(Dir, 1, [Entry(1, "."), Entry(1, ".."), FREE, Entry(3, "f")]),
                                2 := Node(Dir, 0, [Entry(2, "."), Entry(1, "..")]), 3 := Node(File, 1, [])]
  {
    InitialOk(1);
    Created(Initial(1), 1, map[], multiset{}, 1, 2, 2, "d", Dir);
    var nodes := Made(Initial(1), 1, 2, 2, "d", Dir);
    assert nodes[1].ents == [Entry(1, "."), Entry(1, ".."), Entry(2, "d")];
    Created(nodes, 1, map[2 := 2], multiset{}, 1, 3, 3, "f", File);
    var nodes1 := Made(nodes, 1, 3, 3, "f", File);
    assert nodes1[1].ents == [Entry(1, "."), Entry(1, ".."), Entry(2, "d"), Entry(3, "f")];
    Rmdired(nodes1, 1, map[2 := 2], multiset{}, 1, 2, 2);
    var r := AfterRmdir();
    assert r[1].ents == [Entry(1, "."), Entry(1, ".."), FREE, Entry(3, "f")];
    assert r.Keys == {1, 2, 3};
  }

  /** A process whose working directory was removed creates a file there: when the directory
      is freed with its entries, the file keeps count 1 and no name. */
  lemma LostFile()
    ensures var after := Made(AfterRmdir(), 2, 2, 4, "a", File) - {2};
            4 in after && after[4].nlink == 1 && Refs(after, 4) == {} && !CountsOk(after, multiset{})
  {
    AfterRmdirOk();
    var after := Made(AfterRmdir(), 2, 2, 4, "a", File) - {2};
    assert Refs(after, 4) == {};
  }

  /** Or it links a file there: count 2, and only one name is left. */
  lemma LostLink()
    ensures var raised := AfterRmdir()[3 := Node(File, 2, [])];
            && Ok(raised, 1, map[2 := 2], multiset{3})
            && (forall at' :: !Ok(Put(raised, 2, 2, Entry(3, "g")), 1, at', multiset{}))
            && var after := Put(raised, 2, 2, Entry(3, "g")) - {2};
               3 in after && after[3].nlink == 2 && |Refs(after, 3)| == 1
  {
    AfterRmdirOk();
    Recounted(AfterRmdir(), 1, map[2 := 2], multiset{}, 3, 2, multiset{3});
    var raised := AfterRmdir()[3 := Node(File, 2, [])];
    assert multiset{3} - multiset{3} == multiset{};
    LinkNeedsLive(raised, 1, map[2 := 2], multiset{3}, 2, 2, Entry(3, "g"));
    var after := Put(raised, 2, 2, Entry(3, "g")) - {2};
    assert Counts(after, 1, 3, 3);
    assert Refs(after, 3) == {(1, 3)};
  }
}
