/** The order in which chunks of one size leave the tree bins: the oldest first
    (kernel/libc/malloc/malloc.c:2354-2361, 3676-3684, 3712-3724). */
module Ages {
  import opened Rings
  import opened BinIndex
  import opened Codes
  import opened Tries
  import opened Bins

  // when the i-th of a ring of n leaves: first the tree node, then the others from the end
  function Turn(n: nat, i: nat): nat
    requires i < n
  {
    if i == 0 then 0 else n - i
  }

  ghost predicate Before(r: seq<Addr>, a: Addr, b: Addr) {
    exists i, j :: 0 <= i < |r| && 0 <= j < |r| && r[i] == a && r[j] == b && Turn(|r|, i) < Turn(|r|, j)
  }

  // a stands before b in the line of their size
  ghost predicate Older(tries: seq<Chains>, a: Addr, b: Addr) {
    exists i, k :: 0 <= i < |tries| && k in tries[i] && Before(tries[i][k], a, b)
  }

  ghost predicate Oldest(tries: seq<Chains>, b: Addr) {
    forall a :: !Older(tries, a, b)
  }

  // x has joined the end of the line of size s
  ghost predicate Entered(tries: seq<Chains>, tries': seq<Chains>, free: Sizes, x: Addr, s: nat) {
    forall a, b :: Older(tries', a, b) <==> Older(tries, a, b) || (b == x && a in free && free[a] == s)
  }

  // x has left its line
  ghost predicate Gone(tries: seq<Chains>, tries': seq<Chains>, x: Addr) {
    forall a, b :: Older(tries', a, b) <==> Older(tries, a, b) && a != x && b != x
  }

  // v is a tree node
  ghost predicate InTree(c: Chains, v: Addr) {
    exists k :: k in c && v == At(c, k)
  }

  // ---------------- one ring ----------------

  // Rings whose elements stand at corresponding indices, in the same order, up to some left out.
  lemma Carries(r: seq<Addr>, s: seq<Addr>, f: seq<nat>)
    requires |f| == |s| && forall i :: 0 <= i < |s| ==> f[i] < |r| && r[f[i]] == s[i]
    requires forall i, j :: 0 <= i < |s| && 0 <= j < |s| && Turn(|s|, i) < Turn(|s|, j) ==> Turn(|r|, f[i]) < Turn(|r|, f[j])
    ensures forall a, b :: Before(s, a, b) ==> Before(r, a, b)
  {
    hide Turn;
    forall a, b | Before(s, a, b) ensures Before(r, a, b) {
      var i, j :| 0 <= i < |s| && 0 <= j < |s| && s[i] == a && s[j] == b && Turn(|s|, i) < Turn(|s|, j);
      assert r[f[i]] == a && r[f[j]] == b;
    }
  }

  // the same for the way back
  lemma CarriesBack(r: seq<Addr>, s: seq<Addr>, x: Addr, f: seq<nat>)
    requires |f| == |r| && x !in s && forall i :: 0 <= i < |r| && r[i] != x ==> f[i] < |s| && s[f[i]] == r[i]
    requires forall i, j :: 0 <= i < |r| && 0 <= j < |r| && r[i] != x && r[j] != x && Turn(|r|, i) < Turn(|r|, j) ==>
               f[i] < |s| && f[j] < |s| && Turn(|s|, f[i]) < Turn(|s|, f[j])
    ensures forall a, b :: Before(r, a, b) && a != x && b != x ==> Before(s, a, b)
    ensures forall a, b :: Before(s, a, b) ==> a != x && b != x
  {
    hide Turn;
    forall a, b | Before(r, a, b) && a != x && b != x ensures Before(s, a, b) {
      var i, j :| 0 <= i < |r| && 0 <= j < |r| && r[i] == a && r[j] == b && Turn(|r|, i) < Turn(|r|, j);
      assert s[f[i]] == a && s[f[j]] == b;
    }
  }

  lemma BeforeGrown(r: seq<Addr>, x: Addr)
    requires |r| > 0 && x !in r
    ensures forall a, b :: Before(InsertAt(r, 1, x), a, b) <==> Before(r, a, b) || (b == x && a in r)
  {
    var s := InsertAt(r, 1, x);
    Carries(s, r, seq(|r|, i => if i == 0 then 0 else i + 1));
    CarriesBack(s, r, x, seq(|s|, i => if i == 0 then 0 else i - 1));
    LastNew(r, x);
    hide Before, InsertAt;
  }

  lemma LastNew(r: seq<Addr>, x: Addr)
    requires |r| > 0 && x !in r
    ensures var s := InsertAt(r, 1, x); forall a, b :: (a == x ==> !Before(s, a, b)) && (b == x ==> (Before(s, a, b) <==> a in r))
  {
    var s := InsertAt(r, 1, x);
    forall a | a in r ensures Before(s, a, x) {
      var i :| 0 <= i < |r| && r[i] == a;
      assert s[if i == 0 then 0 else i + 1] == a && s[1] == x;
    }
    forall i | 0 <= i < |s| ensures (s[i] == x <==> i == 1) && (i != 1 ==> s[i] in r) {}
    hide InsertAt;
  }

  lemma BeforeCut(r: seq<Addr>, j: nat)
    requires 1 <= j < |r| && Distinct(r)
    ensures forall a, b :: Before(RemoveAt(r, j), a, b) <==> Before(r, a, b) && a != r[j] && b != r[j]
  {
    var s := RemoveAt(r, j);
    Carries(r, s, seq(|s|, i => if i < j then i else i + 1));
    CarriesBack(r, s, r[j], seq(|r|, i => if i < j || i == 0 then i else i - 1));
    hide Before, RemoveAt;
  }

  lemma BeforeReheaded(r: seq<Addr>)
    requires |r| > 1 && Distinct(r)
    ensures forall a, b :: Before(Rehead(r), a, b) <==> Before(r, a, b) && a != r[0] && b != r[0]
  {
    var s := Rehead(r);
    Carries(r, s, seq(|s|, i => if i == 0 then |r| - 1 else i));
    CarriesBack(r, s, r[0], seq(|r|, i => if i == |r| - 1 then 0 else i));
    hide Before, Rehead;
  }

  lemma NoneBefore(r: seq<Addr>)
    requires Distinct(r) && |r| > 0
    ensures forall a :: !Before(r, a, r[0])
  {}

  lemma BeforeIn(r: seq<Addr>)
    ensures forall a, b :: Before(r, a, b) ==> a in r && b in r && |r| > 1
  {}

  // ---------------- all tree bins ----------------

  // some other position tells a from b
  ghost predicate Elsewhere(tries: seq<Chains>, i: nat, k: nat, a: Addr, b: Addr) {
    exists j, l :: 0 <= j < |tries| && l in tries[j] && (j != i || l != k) && Before(tries[j][l], a, b)
  }

  lemma OlderAt(tries: seq<Chains>, i: nat, k: nat)
    requires i < |tries| && k in tries[i]
    ensures forall a, b :: Older(tries, a, b) <==> Before(tries[i][k], a, b) || Elsewhere(tries, i, k, a, b)
  {
    hide Before;
  }

  lemma OlderNone(tries: seq<Chains>, i: nat, k: nat)
    requires i < |tries| && k !in tries[i]
    ensures forall a, b :: Older(tries, a, b) <==> Elsewhere(tries, i, k, a, b)
  {
    hide Before;
  }

  lemma ElsewhereSame(tries: seq<Chains>, c': Chains, i: nat, k: nat)
    requires i < |tries| && forall l :: l != k ==> (l in c' <==> l in tries[i]) && (l in c' ==> c'[l] == tries[i][l])
    ensures forall a, b :: Elsewhere(tries[i := c'], i, k, a, b) <==> Elsewhere(tries, i, k, a, b)
  {
    hide Before;
    var t := tries[i := c'];
    forall a, b | Elsewhere(t, i, k, a, b) ensures Elsewhere(tries, i, k, a, b) {
      var j, l :| 0 <= j < |t| && l in t[j] && (j != i || l != k) && Before(t[j][l], a, b);
      assert l in tries[j] && tries[j][l] == t[j][l];
    }
    forall a, b | Elsewhere(tries, i, k, a, b) ensures Elsewhere(t, i, k, a, b) {
      var j, l :| 0 <= j < |tries| && l in tries[j] && (j != i || l != k) && Before(tries[j][l], a, b);
      assert l in t[j] && tries[j][l] == t[j][l];
    }
  }

  // no other position than (i, k) holds x
  ghost predicate OnlyAt(tries: seq<Chains>, i: nat, k: nat, x: Addr) {
    forall j, l :: 0 <= j < |tries| && l in tries[j] && x in tries[j][l] ==> j == i && l == k
  }

  lemma ElsewhereNot(tries: seq<Chains>, i: nat, k: nat, x: Addr)
    requires OnlyAt(tries, i, k, x)
    ensures forall a, b :: Elsewhere(tries, i, k, a, b) ==> a != x && b != x
  {
    hide Before;
    forall a, b | Elsewhere(tries, i, k, a, b) ensures a != x && b != x {
      var j, l :| 0 <= j < |tries| && l in tries[j] && (j != i || l != k) && Before(tries[j][l], a, b);
      BeforeIn(tries[j][l]);
    }
  }

  // Chain: behind the tree node of its size
  lemma ChainAge(tries: seq<Chains>, free: Sizes, i: nat, k: nat, x: Addr, s: nat)
    requires i < |tries| && k in tries[i] && |tries[i][k]| > 0
    requires x !in free && forall a :: a in tries[i][k] <==> a in free && free[a] == s
    ensures Entered(tries, tries[i := Put(tries[i], k, InsertAt(tries[i][k], 1, x))], free, x, s)
  {
    hide Before, InsertAt;
    var c := Put(tries[i], k, InsertAt(tries[i][k], 1, x));
    BeforeGrown(tries[i][k], x);
    OlderAt(tries, i, k);
    OlderAt(tries[i := c], i, k);
    ElsewhereSame(tries, c, i, k);
    hide Older, Elsewhere;
  }

  // Plant: alone at a new position
  lemma PlantAge(tries: seq<Chains>, free: Sizes, i: nat, k: nat, x: Addr, s: nat)
    requires i < |tries| && k !in tries[i] && forall a :: a in free ==> free[a] != s
    ensures Entered(tries, tries[i := Put(tries[i], k, [x])], free, x, s)
  {
    hide Before;
    var c := Put(tries[i], k, [x]);
    BeforeIn([x]);
    OlderNone(tries, i, k);
    OlderAt(tries[i := c], i, k);
    ElsewhereSame(tries, c, i, k);
    hide Older, Elsewhere;
  }

  // a ring of several loses one
  lemma CutAge(tries: seq<Chains>, i: nat, k: nat, j: nat)
    requires i < |tries| && k in tries[i] && j < |tries[i][k]| && |tries[i][k]| > 1 && Distinct(tries[i][k])
    requires OnlyAt(tries, i, k, tries[i][k][j])
    ensures var r := tries[i][k]; Gone(tries, tries[i := Put(tries[i], k, if j > 0 then RemoveAt(r, j) else Rehead(r))], r[j])
  {
    hide Before, RemoveAt, Rehead;
    var r := tries[i][k];
    var c := Put(tries[i], k, if j > 0 then RemoveAt(r, j) else Rehead(r));
    if j > 0 { BeforeCut(r, j); } else { BeforeReheaded(r); }
    OlderAt(tries, i, k);
    OlderAt(tries[i := c], i, k);
    ElsewhereSame(tries, c, i, k);
    ElsewhereNot(tries, i, k, r[j]);
    hide Older, Elsewhere, Distinct, OnlyAt;
  }

  // a position with one chunk goes
  lemma DropAge(tries: seq<Chains>, i: nat, k: nat, c: Chains)
    requires i < |tries| && k in tries[i] && |tries[i][k]| == 1 && OnlyAt(tries, i, k, tries[i][k][0]) && c == tries[i] - {k}
    ensures Gone(tries, tries[i := c], tries[i][k][0])
  {
    hide Before;
    BeforeIn(tries[i][k]);
    OlderAt(tries, i, k);
    OlderNone(tries[i := c], i, k);
    ElsewhereSame(tries, c, i, k);
    ElsewhereNot(tries, i, k, tries[i][k][0]);
    hide Older, Elsewhere, OnlyAt;
  }

  // or takes the ring of another
  lemma MoveAge(tries: seq<Chains>, i: nat, k: nat, l: nat)
    requires i < |tries| && k in tries[i] && l in tries[i] && k != l && |tries[i][k]| == 1 && OnlyAt(tries, i, k, tries[i][k][0])
    ensures Gone(tries, tries[i := Put(tries[i] - {l}, k, tries[i][l])], tries[i][k][0])
  {
    hide Before, OnlyAt;
    var c: Chains := tries[i];
    var c1: Chains := c - {k};
    var t, t1 := tries[i := Put(c - {l}, k, c[l])], tries[i := c1];
    DropAge(tries, i, k, c1);
    assert t1[i := t[i]] == t;
    SwapAge(t1, i, k, l, t[i]);
  }

  lemma SwapAge(tries: seq<Chains>, i: nat, k: nat, l: nat, c': Chains)
    requires i < |tries| && l in tries[i] && k !in tries[i] && c' == Put(tries[i] - {l}, k, tries[i][l])
    ensures forall a, b :: Older(tries[i := c'], a, b) <==> Older(tries, a, b)
  {
    hide Before;
    var t := tries[i := c'];
    forall a, b | Older(t, a, b) ensures Older(tries, a, b) {
      var j, m :| 0 <= j < |t| && m in t[j] && Before(t[j][m], a, b);
      assert if j == i && m == k then Before(tries[i][l], a, b) else m in tries[j] && Before(tries[j][m], a, b);
    }
    forall a, b | Older(tries, a, b) ensures Older(t, a, b) {
      var j, m :| 0 <= j < |tries| && m in tries[j] && Before(tries[j][m], a, b);
      assert if j == i && m == l then Before(t[i][k], a, b) else m in t[j] && Before(t[j][m], a, b);
    }
  }

  // a tree node is the first of its line
  lemma NodeOldest(tries: seq<Chains>, i: nat, k: nat)
    requires i < |tries| && k in tries[i] && |tries[i][k]| > 0 && Distinct(tries[i][k]) && OnlyAt(tries, i, k, tries[i][k][0])
    ensures Oldest(tries, tries[i][k][0])
  {
    hide Before;
    NoneBefore(tries[i][k]);
    OlderAt(tries, i, k);
    ElsewhereNot(tries, i, k, tries[i][k][0]);
  }
}
