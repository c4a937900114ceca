/**
 * The order of `listDirectory`: the children of a directory, directories
 * before files, each group ordered by name. `Object.values` is modelled by
 * enumerating the keys in name order, and `Array.prototype.sort`, which is
 * stable, by an insertion sort.
 */
module Listing {
  import opened Text
  import opened FileTree

  /** The comparator of `listDirectory` says `a` may stand before `b`. */
  predicate ListedNoLater(a: Node, b: Node) {
    (a.kind == Directory && b.kind == File) || (a.kind == b.kind && LexLe(a.name, b.name))
  }

  predicate SortedListing(s: seq<Node>) {
    forall i, j :: 0 <= i < j < |s| ==> ListedNoLater(s[i], s[j])
  }

  lemma ListedTotal(a: Node, b: Node)
    ensures ListedNoLater(a, b) || ListedNoLater(b, a)
  {
    LexTotal(a.name, b.name);
  }

  lemma ListedTransitive(a: Node, b: Node, c: Node)
    requires ListedNoLater(a, b) && ListedNoLater(b, c)
    ensures ListedNoLater(a, c)
  {
    if a.kind == b.kind && b.kind == c.kind {
      LexTransitive(a.name, b.name, c.name);
    }
  }

  /** An entry that may precede every entry of a sorted listing can head it. */
  lemma SortedCons(x: Node, s: seq<Node>)
    requires SortedListing(s)
    requires forall y :: y in s ==> ListedNoLater(x, y)
    ensures SortedListing([x] + s)
  {
    var r := [x] + s;
    forall i, j | 0 <= i < j < |r| ensures ListedNoLater(r[i], r[j]) {
      assert r[j] == s[j - 1];
      if i > 0 { assert r[i] == s[i - 1]; }
    }
  }

  /** Insert `x` into a sorted listing, before the first entry it may precede. */
  function InsertListed(x: Node, s: seq<Node>): (r: seq<Node>)
    requires SortedListing(s)
    ensures SortedListing(r)
    ensures multiset(r) == multiset(s) + multiset{x}
  {
    if s == [] then [x]
    else if ListedNoLater(x, s[0]) then
      forall y | y in s ensures ListedNoLater(x, y) {
        var j :| 0 <= j < |s| && s[j] == y;
        if j > 0 { ListedTransitive(x, s[0], y); }
      }
      SortedCons(x, s);
      [x] + s
    else
      var t := InsertListed(x, s[1..]);
      assert s == [s[0]] + s[1..];
      forall y | y in t ensures ListedNoLater(s[0], y) {
        assert y in multiset(t);
        if y == x {
          ListedTotal(x, s[0]);
        } else {
          assert y in multiset(s[1..]);
          var j :| 0 <= j < |s[1..]| && s[1..][j] == y;
          assert s[j + 1] == y;
        }
      }
      SortedCons(s[0], t);
      [s[0]] + t
  }

  /** `sort` with the comparator of `listDirectory`: a sorted permutation of `s`. */
  function SortListing(s: seq<Node>): (r: seq<Node>)
    ensures SortedListing(r)
    ensures multiset(r) == multiset(s)
  {
    if s == [] then []
    else
      assert s == [s[0]] + s[1..];
      InsertListed(s[0], SortListing(s[1..]))
  }

  /** The least key in name order. */
  function Smallest(keys: set<string>): (k: string)
    requires keys != {}
    ensures k in keys && forall j :: j in keys ==> LexLe(k, j)
  {
    SmallestExists(keys);
    LexAntisymmetricAll();
    var k :| k in keys && forall j :: j in keys ==> LexLe(k, j);
    k
  }

  lemma LexAntisymmetricAll()
    ensures forall a, b :: LexLe(a, b) && LexLe(b, a) ==> a == b
  {
    forall a, b | LexLe(a, b) && LexLe(b, a) ensures a == b {
      LexAntisymmetric(a, b);
    }
  }

  lemma SmallestExists(keys: set<string>)
    requires keys != {}
    ensures exists k :: k in keys && forall j :: j in keys ==> LexLe(k, j)
  {
    var m := SmallestOf(keys);
  }

  /** A finite non-empty set of names has a least one. */
  lemma {:induction false} SmallestOf(keys: set<string>) returns (m: string)
    requires keys != {}
    ensures m in keys && forall j :: j in keys ==> LexLe(m, j)
    decreases |keys|
  {
    var x :| x in keys;
    LexTotal(x, x);
    if keys == {x} {
      m := x;
    } else {
      var rest := keys - {x};
      var y := SmallestOf(rest);
      LexTotal(x, y);
      if LexLe(x, y) {
        m := x;
        forall j | j in keys ensures LexLe(m, j) {
          if j != x { LexTransitive(x, y, j); }
        }
      } else {
        m := y;
        forall j | j in keys ensures LexLe(m, j) {
          if j == x { LexTotal(y, x); } else { assert j in rest; }
        }
      }
    }
  }

  /** The keys of a directory, each once, in name order. */
  function KeysInOrder(keys: set<string>): (r: seq<string>)
    ensures |r| == |keys|
    ensures forall k :: k in keys <==> k in r
    ensures forall i, j :: 0 <= i < j < |r| ==> r[i] != r[j]
    decreases |keys|
  {
    if keys == {} then []
    else
      var k := Smallest(keys);
      var rest := KeysInOrder(keys - {k});
      assert forall i :: 0 <= i < |rest| ==> rest[i] != k;
      [k] + rest
  }

  /** `Object.values(children)`: one entry per key. */
  function Enumerate(kids: map<string, Node>): (r: seq<Node>)
    ensures |r| == |kids|
    ensures forall k :: k in kids ==> kids[k] in r
    ensures forall x :: x in r ==> x in kids.Values
  {
    var keys := KeysInOrder(kids.Keys);
    var r := Along(kids, keys);
    ValuesAlongKeys(kids, keys, r);
    r
  }

  /** The values of `kids` read along `keys`, one per key. */
  function Along(kids: map<string, Node>, keys: seq<string>): (r: seq<Node>)
    requires forall i :: 0 <= i < |keys| ==> keys[i] in kids
    ensures |r| == |keys| && forall i :: 0 <= i < |r| ==> r[i] == kids[keys[i]]
  {
    if keys == [] then [] else [kids[keys[0]]] + Along(kids, keys[1..])
  }

  /** Reading a map along a list of exactly its keys meets every value and nothing else. */
  lemma ValuesAlongKeys(kids: map<string, Node>, keys: seq<string>, r: seq<Node>)
    requires forall k :: k in kids.Keys <==> k in keys
    requires |r| == |keys| && forall i :: 0 <= i < |r| ==> keys[i] in kids && r[i] == kids[keys[i]]
    ensures forall k :: k in kids ==> kids[k] in r
    ensures forall x :: x in r ==> x in kids.Values
  {
    forall k | k in kids ensures kids[k] in r {
      var i :| 0 <= i < |keys| && keys[i] == k;
      assert r[i] == kids[k];
    }
    forall x | x in r ensures x in kids.Values {
      var i :| 0 <= i < |r| && r[i] == x;
      assert keys[i] in kids;
    }
  }

  /** Every value of a directory occurs in `Object.values` once per key that holds it. */
  lemma EnumerateCounts(kids: map<string, Node>, v: Node)
    ensures multiset(Enumerate(kids))[v] == |set k | k in kids && kids[k] == v|
  {
    var keys := KeysInOrder(kids.Keys);
    assert forall k :: k in kids.Keys <==> k in keys;
    var r := Along(kids, keys);
    assert Enumerate(kids) == r;
    CountAlongKeys(kids, keys, r, v);
    HoldersOfAllKeys(kids, keys, v);
  }

  /** Over a list of all the keys, the holders of `v` are all the keys holding it. */
  lemma HoldersOfAllKeys(kids: map<string, Node>, keys: seq<string>, v: Node)
    requires forall k :: k in kids.Keys <==> k in keys
    ensures Holders(kids, keys, v) == set k | k in kids && kids[k] == v
  {
  }

  /** The keys among `keys` under which `kids` holds `v`. */
  ghost function Holders(kids: map<string, Node>, keys: seq<string>, v: Node): set<string> {
    set k | k in keys && k in kids && kids[k] == v
  }

  /** Reading a map along distinct keys counts each value once per key holding it. */
  lemma {:induction false} CountAlongKeys(kids: map<string, Node>, keys: seq<string>, r: seq<Node>, v: Node)
    requires forall i, j :: 0 <= i < j < |keys| ==> keys[i] != keys[j]
    requires |r| == |keys| && forall i :: 0 <= i < |r| ==> keys[i] in kids && r[i] == kids[keys[i]]
    ensures multiset(r)[v] == |Holders(kids, keys, v)|
    decreases |keys|
  {
    if keys != [] {
      CountAlongKeys(kids, keys[1..], r[1..], v);
      assert r == [r[0]] + r[1..];
      HoldersStep(kids, keys, v);
    } else {
      assert Holders(kids, keys, v) == {};
    }
  }

  /** Taking one more distinct key adds it to the holders exactly when it holds `v`. */
  lemma HoldersStep(kids: map<string, Node>, keys: seq<string>, v: Node)
    requires keys != [] && keys[0] in kids
    requires forall j :: 0 < j < |keys| ==> keys[0] != keys[j]
    ensures kids[keys[0]] == v ==> |Holders(kids, keys, v)| == |Holders(kids, keys[1..], v)| + 1
    ensures kids[keys[0]] != v ==> Holders(kids, keys, v) == Holders(kids, keys[1..], v)
  {
    var t := Holders(kids, keys[1..], v);
    assert keys == [keys[0]] + keys[1..];
    assert keys[0] !in t by {
      forall j | 0 <= j < |keys[1..]| ensures keys[1..][j] != keys[0] {
        assert keys[1..][j] == keys[j + 1];
      }
    }
    if kids[keys[0]] == v {
      assert Holders(kids, keys, v) == t + {keys[0]};
    }
  }

  /** The listing of a directory's children, in the order `listDirectory` returns them. */
  function ListingOf(kids: map<string, Node>): (r: seq<Node>)
    ensures forall i, j :: 0 <= i < j < |r| && r[j].kind == Directory ==> r[i].kind == Directory
    ensures forall i, j :: 0 <= i < j < |r| && r[i].kind == r[j].kind ==> LexLe(r[i].name, r[j].name)
    ensures multiset(r) == multiset(Enumerate(kids))
    ensures |r| == |kids|
    ensures forall k :: k in kids ==> kids[k] in r
    ensures forall x :: x in r ==> x in kids.Values
  {
    var e := Enumerate(kids);
    var r := SortListing(e);
    SameMembers(r, e);
    r
  }

  /** A listing holds every child once per key holding it. */
  lemma ListingCounts(kids: map<string, Node>, v: Node)
    ensures multiset(ListingOf(kids))[v] == |set k | k in kids && kids[k] == v|
  {
    EnumerateCounts(kids, v);
  }

  /** Two sequences with the same multiset have the same members. */
  lemma SameMembers(a: seq<Node>, b: seq<Node>)
    requires multiset(a) == multiset(b)
    ensures forall x :: x in a <==> x in b
  {
    forall x ensures x in a <==> x in b {
      assert x in a <==> x in multiset(a);
      assert x in b <==> x in multiset(b);
    }
  }
}
