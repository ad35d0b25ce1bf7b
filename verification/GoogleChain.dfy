/**
  Google purchase-chain resolution, app/services/webhooks/google-chain.ts: a write-once parent map,
  walked with a seen-set and a depth cap, used as a canonical-representative function.
 */
module GoogleChain {

  const MAX_CHAIN_DEPTH: nat := 16

  type TenantId = string
  type Token = string

  /** One tenant's links: a token to the token it replaced. */
  type Links = map<Token, Token>

  datatype Link = Link(current: Token, previous: Token)

  /** The links of one tenant, out of the whole table. */
  function LinksOf(rows: map<(TenantId, Token), Token>, tenant: TenantId): Links {
    map key | key in rows && key.0 == tenant :: key.1 := rows[key]
  }

  predicate Recordable(l: Link) {
    l.current != "" && l.previous != "" && l.current != l.previous
  }

  /** Insert, doing nothing on a conflict on the current token. */
  function Recorded(links: Links, l: Link): Links {
    if Recordable(l) && l.current !in links then links[l.current := l.previous] else links
  }

  function Last(path: seq<Token>): Token
    requires path != []
  {
    path[|path| - 1]
  }

  /** Extend a walked path by at most `left` hops, stopping at a root or before a token already passed. */
  function Trace(links: Links, path: seq<Token>, left: nat): (walked: seq<Token>)
    requires path != []
    ensures path <= walked && |walked| <= |path| + left
    decreases left
  {
    if left == 0 || Last(path) !in links || links[Last(path)] in path then path
    else Trace(links, path + [links[Last(path)]], left - 1)
  }

  /** The tokens `resolveToRoot` passes, the start included. */
  function Walked(links: Links, token: Token): (walked: seq<Token>)
    ensures 1 <= |walked| <= MAX_CHAIN_DEPTH + 1 && walked[0] == token
  {
    Trace(links, [token], MAX_CHAIN_DEPTH)
  }

  function Resolve(links: Links, token: Token): Token { Last(Walked(links, token)) }

  /** The google_purchase_chains table. */
  class ChainTable {
    var rows: map<(TenantId, Token), Token>

    constructor ()
      ensures rows == map[]
    {
      rows := map[];
    }

    method RecordChainLink(tenantId: TenantId, l: Link)
      modifies this
      ensures LinksOf(rows, tenantId) == Recorded(LinksOf(old(rows), tenantId), l)
      ensures rows == if l.current != "" && l.previous != "" && l.current != l.previous && (tenantId, l.current) !in old(rows)
                      then old(rows)[(tenantId, l.current) := l.previous] else old(rows)
      ensures forall other | other != tenantId :: LinksOf(rows, other) == LinksOf(old(rows), other)
      ensures forall key <- old(rows) :: key in rows && rows[key] == old(rows)[key]
    {
      if l.current == "" || l.previous == "" { return; }
      if l.current == l.previous { return; }
      if (tenantId, l.current) !in rows {
        rows := rows[(tenantId, l.current) := l.previous];
      }
      assert LinksOf(rows, tenantId) == Recorded(LinksOf(old(rows), tenantId), l);
    }

    method ResolveToRoot(tenantId: TenantId, token: Token) returns (root: Token)
      ensures root == Resolve(LinksOf(rows, tenantId), token)
    {
      ghost var links := LinksOf(rows, tenantId);
      var cursor := token;
      var seen := {cursor};
      ghost var path := [token];
      for depth := 0 to MAX_CHAIN_DEPTH
        invariant path != [] && Last(path) == cursor && forall x :: x in seen <==> x in path
        invariant Walked(links, token) == Trace(links, path, MAX_CHAIN_DEPTH - depth)
      {
        if (tenantId, cursor) !in rows { return cursor; }
        var previous := rows[(tenantId, cursor)];
        if previous in seen { return cursor; }
        seen := seen + {previous};
        cursor := previous;
        path := path + [previous];
      }
      return cursor;
    }
  }

  // ---------------------------------------------------------------------------------------------
  // The ancestors of a token, said without the walk.
  // ---------------------------------------------------------------------------------------------

  /** `path` follows the links from t. */
  ghost predicate IsPath(links: Links, t: Token, path: seq<Token>) {
    && path != [] && path[0] == t
    && forall i | 0 <= i < |path| - 1 :: path[i] in links && links[path[i]] == path[i + 1]
  }

  ghost predicate Distinct(path: seq<Token>) {
    forall i, j | 0 <= i < j < |path| :: path[i] != path[j]
  }

  /** A path the walk may not extend: its end is a root, or leads back onto the path, or the cap is reached. */
  ghost predicate Stopped(links: Links, path: seq<Token>)
    requires path != []
  {
    |path| == MAX_CHAIN_DEPTH + 1 || Last(path) !in links || links[Last(path)] in path
  }

  /** t has a token without predecessor at most 16 hops behind it. */
  ghost predicate RootWithin(links: Links, t: Token) {
    exists path :: IsPath(links, t, path) && |path| <= MAX_CHAIN_DEPTH + 1 && Last(path) !in links
  }

  lemma StillWalking(links: Links, path: seq<Token>, longer: seq<Token>)
    requires path != [] && path <= longer && |longer| == |path| + 1
    requires !Stopped(links, path) && forall m | 0 < m < |path| :: !Stopped(links, path[..m])
    ensures forall m | 0 < m < |longer| :: !Stopped(links, longer[..m])
  {
    forall m | 0 < m < |longer| ensures !Stopped(links, longer[..m]) {
      assert longer[..m] == path[..m];
      if m == |path| { assert path[..m] == path; }
    }
  }

  lemma {:induction false} TraceFollowsLinks(links: Links, t: Token, path: seq<Token>, left: nat)
    requires IsPath(links, t, path) && Distinct(path) && |path| + left == MAX_CHAIN_DEPTH + 1
    requires forall m | 0 < m < |path| :: !Stopped(links, path[..m])
    ensures var w := Trace(links, path, left);
            && IsPath(links, t, w) && Distinct(w) && Stopped(links, w)
            && forall m | 0 < m < |w| :: !Stopped(links, w[..m])
    decreases left
  {
    if !Stopped(links, path) {
      var longer := path + [links[Last(path)]];
      StillWalking(links, path, longer);
      assert IsPath(links, t, longer) && Distinct(longer);
      TraceFollowsLinks(links, t, longer, left - 1);
    }
  }

  lemma {:induction false} PathsAgree(links: Links, t: Token, p: seq<Token>, q: seq<Token>, i: nat)
    requires IsPath(links, t, p) && IsPath(links, t, q) && i < |p| && i < |q|
    ensures p[i] == q[i]
  {
    if i > 0 { PathsAgree(links, t, p, q, i - 1); }
  }

  /**
    Exactly where the walk ends, in any map at all, cyclic or deep: it passes at most 16 hops along
    the links without repeating a token, ends at the first point where it must stop, and that
    property determines it.
   */
  lemma WalkEndsAtFirstStop(links: Links, t: Token, path: seq<Token>)
    ensures && IsPath(links, t, Walked(links, t))
            && Distinct(Walked(links, t))
            && |Walked(links, t)| <= MAX_CHAIN_DEPTH + 1
    ensures IsPath(links, t, path) && |path| <= MAX_CHAIN_DEPTH + 1 ==>
              (path == Walked(links, t)
               <==> Stopped(links, path) && forall m | 0 < m < |path| :: !Stopped(links, path[..m]))
  {
    TraceFollowsLinks(links, t, [t], MAX_CHAIN_DEPTH);
    var w := Walked(links, t);
    if IsPath(links, t, path) && Stopped(links, path) && forall m | 0 < m < |path| :: !Stopped(links, path[..m]) {
      var n := if |w| < |path| then |w| else |path|;
      forall i | 0 <= i < n ensures w[i] == path[i] { PathsAgree(links, t, w, path, i); }
      assert w[..n] == path[..n];
      assert w == w[..|w|] && path == path[..|path|];
    }
  }

  // ---------------------------------------------------------------------------------------------
  // Canonical keys.
  // ---------------------------------------------------------------------------------------------

  /** A path that ends at a root repeats nothing, so the walk is that path. */
  lemma RootPathIsWalked(links: Links, t: Token, path: seq<Token>)
    requires IsPath(links, t, path) && |path| <= MAX_CHAIN_DEPTH + 1 && Last(path) !in links
    ensures Walked(links, t) == path
  {
    forall i, j | 0 <= i < j < |path| ensures path[i] != path[j] {
      if path[i] == path[j] {
        PathsAgree(links, path[i], path[i..], path[j..], |path| - 1 - j);
      }
    }
    forall m | 0 < m < |path| ensures !Stopped(links, path[..m]) {
      assert Last(path[..m]) == path[m - 1];
      assert links[path[m - 1]] == path[m];
      assert forall i | 0 <= i < m :: path[i] != path[m];
    }
    WalkEndsAtFirstStop(links, t, path);
  }

  /**
    The key of t is a token without predecessor exactly when one lies within 16 hops behind t,
    and then it is that one.
   */
  lemma KeyIsRootIff(links: Links, t: Token)
    ensures Resolve(links, t) !in links <==> RootWithin(links, t)
    ensures forall path | IsPath(links, t, path) && |path| <= MAX_CHAIN_DEPTH + 1 && Last(path) !in links ::
              Resolve(links, t) == Last(path)
  {
    WalkEndsAtFirstStop(links, t, [t]);
    forall path | IsPath(links, t, path) && |path| <= MAX_CHAIN_DEPTH + 1 && Last(path) !in links
      ensures Walked(links, t) == path
    {
      RootPathIsWalked(links, t, path);
    }
  }

  /** What recordChainLink keeps: no token is its own predecessor. */
  ghost predicate NoSelfLinks(links: Links) {
    forall x <- links :: links[x] != x
  }

  lemma RecordingKeepsNoSelfLinks(links: Links, l: Link)
    requires NoSelfLinks(links)
    ensures NoSelfLinks(Recorded(links, l))
    ensures forall x <- links :: x in Recorded(links, l) && Recorded(links, l)[x] == links[x]
  {
  }

  /** Resolving a key again gives the key, exactly when the walk reached a root. */
  lemma IdempotentIffRootReached(links: Links, t: Token)
    requires NoSelfLinks(links)
    ensures Resolve(links, Resolve(links, t)) == Resolve(links, t) <==> RootWithin(links, t)
  {
    KeyIsRootIff(links, t);
    var key := Resolve(links, t);
    WalkEndsAtFirstStop(links, key, [key]);
    if key in links {
      assert !Stopped(links, [key]);
      assert Walked(links, key)[0] == key && |Walked(links, key)| > 1;
    }
  }

  ghost predicate Adjacent(links: Links, a: Token, b: Token) {
    (a in links && links[a] == b) || (b in links && links[b] == a)
  }

  ghost predicate Bridges(links: Links, a: Token, b: Token, steps: seq<Token>) {
    && steps != [] && steps[0] == a && Last(steps) == b
    && forall i | 0 <= i < |steps| - 1 :: Adjacent(links, steps[i], steps[i + 1])
  }

  /** a and b lie in the same link tree: some chain of links, taken in either direction, joins them. */
  ghost predicate SameTree(links: Links, a: Token, b: Token) {
    exists steps :: Bridges(links, a, b, steps)
  }

  /** Acyclic, with no chain deeper than the cap. */
  ghost predicate Shallow(links: Links) {
    forall t :: RootWithin(links, t)
  }

  lemma LinkKeepsKey(links: Links, x: Token)
    requires RootWithin(links, x) && x in links
    ensures Resolve(links, links[x]) == Resolve(links, x)
  {
    var path :| IsPath(links, x, path) && |path| <= MAX_CHAIN_DEPTH + 1 && Last(path) !in links;
    RootPathIsWalked(links, x, path);
    RootPathIsWalked(links, links[x], path[1..]);
  }

  lemma {:induction false} BridgeKeepsKey(links: Links, a: Token, b: Token, steps: seq<Token>)
    requires Shallow(links) && Bridges(links, a, b, steps)
    ensures Resolve(links, a) == Resolve(links, b)
    decreases |steps|
  {
    if |steps| > 1 {
      assert Adjacent(links, steps[0], steps[1]);
      LinkKeepsKey(links, if a in links && links[a] == steps[1] then a else steps[1]);
      BridgeKeepsKey(links, steps[1], b, steps[1..]);
    }
  }

  /** Down from a along `path`, then back along another path that ends at the same token. */
  lemma {:induction false} PathsBridge(links: Links, a: Token, p: seq<Token>, b: Token, q: seq<Token>) returns (steps: seq<Token>)
    requires IsPath(links, a, p) && IsPath(links, b, q) && Last(p) == Last(q)
    ensures Bridges(links, a, b, steps)
    decreases |q|
  {
    if |q| == 1 {
      steps := p;
      forall i | 0 <= i < |p| - 1 ensures Adjacent(links, p[i], p[i + 1]) {}
    } else {
      var to := PathsBridge(links, a, p, q[1], q[1..]);
      steps := to + [b];
      forall i | 0 <= i < |steps| - 1 ensures Adjacent(links, steps[i], steps[i + 1]) {
        assert i < |to| - 1 ==> Adjacent(links, to[i], to[i + 1]);
      }
    }
  }

  /** In a shallow map the key is canonical: two tokens share it iff they lie in the same link tree. */
  lemma SameKeyIffSameTree(links: Links, a: Token, b: Token)
    requires Shallow(links)
    ensures Resolve(links, a) == Resolve(links, b) <==> SameTree(links, a, b)
  {
    if steps :| Bridges(links, a, b, steps) {
      BridgeKeepsKey(links, a, b, steps);
    }
    if Resolve(links, a) == Resolve(links, b) {
      WalkEndsAtFirstStop(links, a, [a]);
      WalkEndsAtFirstStop(links, b, [b]);
      var steps := PathsBridge(links, a, Walked(links, a), b, Walked(links, b));
    }
  }

  /** Two tokens share a key exactly when they lie in the same link tree. */
  ghost predicate CanonicalFor(links: Links, a: Token, b: Token) {
    Resolve(links, a) == Resolve(links, b) <==> SameTree(links, a, b)
  }

  /** The walk of a token joins it to its key. */
  lemma KeyIsInTheTree(links: Links, t: Token)
    ensures SameTree(links, t, Resolve(links, t))
  {
    var w := Walked(links, t);
    WalkEndsAtFirstStop(links, t, w);
    forall i | 0 <= i < |w| - 1 ensures Adjacent(links, w[i], w[i + 1]) {}
    assert Bridges(links, t, Resolve(links, t), w);
  }

  /** Exactly when the key is canonical: in a table without self-links, iff it is acyclic with no chain deeper than the cap. */
  lemma CanonicalIffShallow(links: Links)
    requires NoSelfLinks(links)
    ensures Shallow(links) <==> forall a, b :: CanonicalFor(links, a, b)
  {
    if Shallow(links) {
      forall a, b ensures CanonicalFor(links, a, b) { SameKeyIffSameTree(links, a, b); }
    } else {
      var t :| !RootWithin(links, t);
      IdempotentIffRootReached(links, t);
      KeyIsInTheTree(links, t);
      assert !CanonicalFor(links, t, Resolve(links, t));
    }
  }

  // ---------------------------------------------------------------------------------------------
  // Evolution of the map.
  // ---------------------------------------------------------------------------------------------

  function RecordedAll(links: Links, batch: seq<Link>): Links {
    if batch == [] then links
    else Recorded(RecordedAll(links, batch[..|batch| - 1]), batch[|batch| - 1])
  }

  /** No two links of the batch disagree on a current token. */
  ghost predicate OneLinkPerToken(batch: seq<Link>) {
    forall l, m | l in batch && m in batch && l.current == m.current :: l == m
  }

  /** The map a batch leaves, link by link, whatever its order. */
  ghost predicate IsMerge(links: Links, batch: seq<Link>, merged: Links) {
    && (forall x :: x in merged <==> x in links || exists l :: l in batch && Recordable(l) && l.current == x)
    && (forall x <- links :: x in merged && merged[x] == links[x])
    && (forall l <- batch :: Recordable(l) && l.current !in links ==> l.current in merged && merged[l.current] == l.previous)
  }

  lemma {:induction false} RecordedAllMerges(links: Links, batch: seq<Link>)
    requires OneLinkPerToken(batch)
    ensures IsMerge(links, batch, RecordedAll(links, batch))
  {
    if batch != [] {
      var n := |batch| - 1;
      RecordedAllMerges(links, batch[..n]);
      assert batch == batch[..n] + [batch[n]];
      assert forall l :: l in batch <==> l in batch[..n] || l == batch[n];
    }
  }

  /** Recording order does not matter. */
  lemma RecordingOrderIsIrrelevant(links: Links, batch: seq<Link>, reordered: seq<Link>)
    requires OneLinkPerToken(batch)
    requires forall l :: l in batch <==> l in reordered
    ensures RecordedAll(links, batch) == RecordedAll(links, reordered)
  {
    RecordedAllMerges(links, batch);
    RecordedAllMerges(links, reordered);
    MergesAgree(links, batch, reordered, RecordedAll(links, batch), RecordedAll(links, reordered));
  }

  lemma MergesAgree(links: Links, batch: seq<Link>, reordered: seq<Link>, m: Links, n: Links)
    requires forall l :: l in batch <==> l in reordered
    requires IsMerge(links, batch, m) && IsMerge(links, reordered, n)
    ensures m == n
  {
  }

  lemma {:induction false} TraceAvoids(links: Links, path: seq<Token>, left: nat, l: Link)
    requires path != [] && l.current !in path && l.current !in links.Values && l.current !in links
    ensures Trace(links[l.current := l.previous], path, left) == Trace(links, path, left)
    decreases left
  {
    if left > 0 && Last(path) in links && links[Last(path)] !in path {
      assert links[Last(path)] in links.Values;
      TraceAvoids(links, path + [links[Last(path)]], left - 1, l);
    }
  }

  lemma {:induction false} TraceBehindLeaf(links: Links, path: seq<Token>, left: nat, l: Link)
    requires path != [] && l.current !in path && l.current !in links.Values && l.current !in links
    ensures Trace(links[l.current := l.previous], [l.current] + path, left) == [l.current] + Trace(links, path, left)
    decreases left
  {
    assert Last([l.current] + path) == Last(path);
    if left > 0 && Last(path) in links {
      var next := links[Last(path)];
      assert next in links.Values;
      if next !in path {
        assert [l.current] + (path + [next]) == [l.current] + path + [next];
        TraceBehindLeaf(links, path + [next], left - 1, l);
      }
    }
  }

  lemma {:induction false} OneHopFewer(links: Links, path: seq<Token>, left: nat)
    requires path != []
    ensures var full := Trace(links, path, left + 1);
            Trace(links, path, left) == if |full| == |path| + left + 1 then full[..|path| + left] else full
    decreases left
  {
    if Last(path) in links && links[Last(path)] !in path && left > 0 {
      OneHopFewer(links, path + [links[Last(path)]], left - 1);
    }
  }

  /**
    A fresh leaf changes no other token's key, and takes its predecessor's key exactly when the
    predecessor's own walk ends before the cap.
   */
  lemma FreshLeafTakesPredecessorsKey(links: Links, l: Link)
    requires Recordable(l) && l.current !in links && l.current !in links.Values
    ensures forall t | t != l.current :: Resolve(Recorded(links, l), t) == Resolve(links, t)
    ensures Resolve(Recorded(links, l), l.current) == Resolve(links, l.previous)
            <==> |Walked(links, l.previous)| <= MAX_CHAIN_DEPTH
  {
    forall t | t != l.current ensures Resolve(Recorded(links, l), t) == Resolve(links, t) {
      TraceAvoids(links, [t], MAX_CHAIN_DEPTH, l);
    }
    LeafWalk(links, l);
    OneHopFewer(links, [l.previous], MAX_CHAIN_DEPTH - 1);
    WalkIsDistinct(links, l.previous);
  }

  /** A fresh leaf is walked from by one hop, and then as its predecessor with one hop less. */
  lemma LeafWalk(links: Links, l: Link)
    requires Recordable(l) && l.current !in links && l.current !in links.Values
    ensures Resolve(Recorded(links, l), l.current) == Last(Trace(links, [l.previous], MAX_CHAIN_DEPTH - 1))
  {
    TraceBehindLeaf(links, [l.previous], MAX_CHAIN_DEPTH - 1, l);
    assert [l.current] + [l.previous] == [l.current, l.previous];
    assert Walked(Recorded(links, l), l.current) == [l.current] + Trace(links, [l.previous], MAX_CHAIN_DEPTH - 1);
  }

  lemma WalkIsDistinct(links: Links, t: Token)
    ensures Distinct(Walked(links, t))
  {
    WalkEndsAtFirstStop(links, t, [t]);
  }

  lemma {:induction false} FewerLinksShorterTrace(links: Links, kept: Links, path: seq<Token>, left: nat)
    requires path != [] && forall x <- kept :: x in links && links[x] == kept[x]
    ensures Trace(kept, path, left) <= Trace(links, path, left)
    decreases left
  {
    if left > 0 && Last(path) in kept && kept[Last(path)] !in path {
      FewerLinksShorterTrace(links, kept, path + [kept[Last(path)]], left - 1);
    }
  }

  /** Deleting any links, as the retention sweep does, leaves every key an ancestor on the token's old walk. */
  lemma DeletionMovesKeyAlongOldWalk(links: Links, kept: Links, t: Token)
    requires forall x <- kept :: x in links && links[x] == kept[x]
    ensures Walked(kept, t) <= Walked(links, t)
    ensures Resolve(kept, t) in Walked(links, t)
  {
    FewerLinksShorterTrace(links, kept, [t], MAX_CHAIN_DEPTH);
  }

  // ---------------------------------------------------------------------------------------------
  // Tables as the program makes them.
  // ---------------------------------------------------------------------------------------------

  /** What happens to one tenant's links: a recorded link, or deletions by a sweep. */
  datatype Change = Recording(link: Link) | Deletion(tokens: set<Token>)

  function TableAfter(changes: seq<Change>): Links {
    if changes == [] then map[]
    else
      var before := TableAfter(changes[..|changes| - 1]);
      match changes[|changes| - 1]
      case Recording(l) => Recorded(before, l)
      case Deletion(tokens) => before - tokens
  }

  lemma {:induction false} TablesHaveNoSelfLinks(changes: seq<Change>)
    ensures NoSelfLinks(TableAfter(changes))
  {
    if changes != [] {
      var earlier, last := changes[..|changes| - 1], changes[|changes| - 1];
      TablesHaveNoSelfLinks(earlier);
      if last.Recording? { RecordingKeepsNoSelfLinks(TableAfter(earlier), last.link); }
    }
  }

  /** In every table that recording and sweeping can make, a key is its own key exactly when the walk reached a root. */
  lemma KeyOfKeyIff(changes: seq<Change>, t: Token)
    ensures var links := TableAfter(changes);
            Resolve(links, Resolve(links, t)) == Resolve(links, t) <==> RootWithin(links, t)
  {
    TablesHaveNoSelfLinks(changes);
    IdempotentIffRootReached(TableAfter(changes), t);
  }

  // ---------------------------------------------------------------------------------------------
  // A chain one link too deep.
  // ---------------------------------------------------------------------------------------------

  /** The i-th token of a long chain; rung 0 is the root. */
  function Rung(i: nat): (token: Token)
    ensures |token| == i + 1
  {
    seq(i + 1, _ => 'x')
  }

  function Ladder(n: nat): Links {
    if n == 0 then map[] else Recorded(Ladder(n - 1), Link(Rung(n), Rung(n - 1)))
  }

  lemma {:induction false} LadderLinks(n: nat)
    ensures forall x :: x in Ladder(n) <==> 2 <= |x| <= n + 1 && x == Rung(|x| - 1)
    ensures forall i | 0 < i <= n :: Rung(i) in Ladder(n) && Ladder(n)[Rung(i)] == Rung(i - 1)
    ensures n > 0 ==> Recordable(Link(Rung(n), Rung(n - 1))) && Rung(n) !in Ladder(n - 1) && Rung(n) !in Ladder(n - 1).Values
  {
    if n > 0 {
      LadderLinks(n - 1);
      assert |Rung(n)| != |Rung(n - 1)|;
      var links := Ladder(n - 1);
      forall x | x in links ensures links[x] != Rung(n) {
        assert x == Rung(|x| - 1) && links[Rung(|x| - 1)] == Rung(|x| - 2);
      }
    }
  }

  lemma SixteenLinksAreWalked()
    ensures |Walked(Ladder(16), Rung(16))| == 17
  {
    LadderLinks(16);
    var links := Ladder(16);
    var path := seq(17, i requires 0 <= i < 17 => Rung(16 - i));
    forall i | 0 <= i < 16 ensures path[i] in links && links[path[i]] == path[i + 1] {
      assert path[i] == Rung(16 - i) && path[i + 1] == Rung(16 - i - 1);
    }
    RootPathIsWalked(links, Rung(16), path);
  }

  /** Seventeen recorded links: the leaf and the token it replaced get different keys, so one subscription has two. */
  lemma SeventeenLinksSplitTheKey()
    ensures Rung(17) in Ladder(17) && Ladder(17)[Rung(17)] == Rung(16)
    ensures Resolve(Ladder(17), Rung(17)) != Resolve(Ladder(17), Rung(16))
  {
    LadderLinks(17);
    SixteenLinksAreWalked();
    FreshLeafTakesPredecessorsKey(Ladder(16), Link(Rung(17), Rung(16)));
    assert |Rung(17)| != |Rung(16)|;
  }
}
