/** The command dump behind "." and `show registered commands`: a depth-first walk that writes every token
    path into one shared array (CommandParser/clistd.c:38-67, string_util.c:50-63, 150-161). */
module Dump {
  import opened CommandTree
  import opened Sequences

  const MAX_CMD_TREE_DEPTH: nat := 16

  /** The token a param contributes to a path. */
  function TokenOf(p: Param): string {
    if p.kind.Leaf? then "<" + p.name + ">" else p.name
  }

  predicate Dumpable(t: Tree, n: Id) {
    WellFormed(t) && (n == ROOT || DO_HOOK <= n < |t|)
  }

  lemma KidIsLater(t: Tree, n: Id, k: nat)
    requires Dumpable(t, n) && !t[n].kind.NoCmd? && CHILDREN_START_INDEX <= k < |t[n].options|
    ensures n < t[n].options[k] && Dumpable(t, t[n].options[k])
  {
    assert OptionsOk(t, n);
    assert ParentOk(t, t[n].options[k]);
  }

  /** Every path below `n` fits the token array, `n` itself being written at `index`. */
  ghost predicate Fits(t: Tree, n: Id, index: nat)
    requires Dumpable(t, n)
    decreases |t| - n, 1, 0
  {
    t[n].kind.NoCmd? || (index < MAX_CMD_TREE_DEPTH && KidsFit(t, n, index, CHILDREN_START_INDEX))
  }

  ghost predicate KidsFit(t: Tree, n: Id, index: nat, k: nat)
    requires Dumpable(t, n) && !t[n].kind.NoCmd? && k >= CHILDREN_START_INDEX
    decreases |t| - n, 0, |t[n].options| - k
  {
    k >= |t[n].options| ||
    (KidIsLater(t, n, k); Fits(t, t[n].options[k], index + 1) && KidsFit(t, n, index, k + 1))
  }

  /** The lines printed for `n` and everything below it, given the tokens on the way to it. */
  ghost function Lines(t: Tree, n: Id, prefix: seq<string>): seq<seq<string>>
    requires Dumpable(t, n)
    decreases |t| - n, 1, 0
  {
    if t[n].kind.NoCmd? then []
    else
      var path := prefix + [TokenOf(t[n])];
      LinesOfKids(t, n, path, CHILDREN_START_INDEX) + (if t[n].hasCallback then [path] else [])
  }

  ghost function LinesOfKids(t: Tree, n: Id, path: seq<string>, k: nat): seq<seq<string>>
    requires Dumpable(t, n) && !t[n].kind.NoCmd? && k >= CHILDREN_START_INDEX
    decreases |t| - n, 0, |t[n].options| - k
  {
    if k >= |t[n].options| then []
    else
      KidIsLater(t, n, k);
      Lines(t, t[n].options[k], path) + LinesOfKids(t, n, path, k + 1)
  }

  class CommandDump {
    const tree: Tree
    /** The one token array all paths are written into. */
    const tokens: array<string>
    /** The lines printed, each as its tokens. */
    var output: seq<seq<string>>

    ghost predicate Valid()
      reads this
    {
      tokens.Length == MAX_CMD_TREE_DEPTH
    }

    constructor (tree: Tree)
      ensures Valid() && this.tree == tree && output == [] && fresh(tokens)
    {
      this.tree := tree;
      tokens := new string[MAX_CMD_TREE_DEPTH](_ => "");
      output := [];
    }

    /** untokenize and tokenize */
    method SetToken(token: string, index: nat)
      requires Valid() && index < MAX_CMD_TREE_DEPTH
      modifies tokens
      ensures tokens[..] == old(tokens[..])[index := token]
    {
      tokens[index] := token;
    }

    /** print_tokens, and the newline after it */
    method PrintTokens(count: nat)
      requires Valid() && count <= MAX_CMD_TREE_DEPTH
      modifies `output
      ensures output == old(output) + [tokens[..count]]
    {
      var line: seq<string> := [];
      for i := 0 to count
        invariant line == tokens[..i]
      {
        line := line + [tokens[i]];
      }
      output := output + [line];
    }

    /** dump_all_commands: the print comes after the recursion into the children has overwritten every later
        slot of the array, and still prints the param's own path. */
    method DumpAllCommands(n: Id, index: nat)
      requires Valid() && Dumpable(tree, n) && index <= MAX_CMD_TREE_DEPTH && Fits(tree, n, index)
      modifies `output, tokens
      ensures output == old(output) + Lines(tree, n, old(tokens[..index]))
      ensures tokens[..index] == old(tokens[..index])
      decreases |tree| - n, 1
    {
      if tree[n].kind.NoCmd? {
        assert output + [] == output;
        return;
      }
      ghost var prefix := tokens[..index];
      ghost var before := output;
      SetToken(TokenOf(tree[n]), index);
      ghost var path := prefix + [TokenOf(tree[n])];
      assert tokens[..index + 1] == path;
      DumpKids(n, index, path);
      if tree[n].hasCallback {
        PrintTokens(index + 1);
      } else {
        assert output + [] == output;
      }
      ghost var own := if tree[n].hasCallback then [path] else [];
      Associate(before, LinesOfKids(tree, n, path, CHILDREN_START_INDEX), own);
      assert tokens[..index] == path[..index];
    }

    /** The recursion into the children. */
    method DumpKids(n: Id, index: nat, ghost path: seq<string>)
      requires Valid() && Dumpable(tree, n) && !tree[n].kind.NoCmd? && index < MAX_CMD_TREE_DEPTH
      requires KidsFit(tree, n, index, CHILDREN_START_INDEX) && tokens[..index + 1] == path
      modifies `output, tokens
      ensures output == old(output) + LinesOfKids(tree, n, path, CHILDREN_START_INDEX)
      ensures tokens[..index + 1] == path
      decreases |tree| - n, 0
    {
      ghost var goal := output + LinesOfKids(tree, n, path, CHILDREN_START_INDEX);
      var options := tree[n].options;
      var k := CHILDREN_START_INDEX;
      while k < |options|
        invariant k >= CHILDREN_START_INDEX
        invariant tokens[..index + 1] == path
        invariant KidsFit(tree, n, index, k)
        invariant output + LinesOfKids(tree, n, path, k) == goal
        decreases |options| - k
      {
        KidIsLater(tree, n, k);
        ghost var was := output;
        DumpAllCommands(options[k], index + 1);
        Associate(was, Lines(tree, options[k], path), LinesOfKids(tree, n, path, k + 1));
        k := k + 1;
      }
      assert output + [] == output;
    }
  }

  // ---- the reference: params by address ----

  datatype Place = Nowhere | At(param: Id)

  /** Where the slots `addr` lead from `n`, entering no `no` on the way. */
  ghost function Locate(t: Tree, n: Id, addr: seq<nat>): (place: Place)
    requires Dumpable(t, n)
    ensures place.At? ==> place.param < |t|
    decreases |addr|
  {
    if t[n].kind.NoCmd? then Nowhere
    else if addr == [] then At(n)
    else if CHILDREN_START_INDEX <= addr[0] < |t[n].options| then
      KidIsLater(t, n, addr[0]);
      Locate(t, t[n].options[addr[0]], addr[1..])
    else Nowhere
  }

  /** The tokens of the params on the way, `n` included. */
  ghost function TokenPath(t: Tree, n: Id, addr: seq<nat>): seq<string>
    requires Dumpable(t, n) && Locate(t, n, addr).At?
    decreases |addr|
  {
    if addr == [] then [TokenOf(t[n])]
    else
      KidIsLater(t, n, addr[0]);
      [TokenOf(t[n])] + TokenPath(t, t[n].options[addr[0]], addr[1..])
  }

  /** The addresses of the params that print, in the order they do. */
  ghost function Addresses(t: Tree, n: Id): seq<seq<nat>>
    requires Dumpable(t, n)
    decreases |t| - n, 1, 0
  {
    if t[n].kind.NoCmd? then []
    else AddressesOfKids(t, n, CHILDREN_START_INDEX) + (if t[n].hasCallback then [[]] else [])
  }

  ghost function AddressesOfKids(t: Tree, n: Id, k: nat): seq<seq<nat>>
    requires Dumpable(t, n) && !t[n].kind.NoCmd? && k >= CHILDREN_START_INDEX
    decreases |t| - n, 0, |t[n].options| - k
  {
    if k >= |t[n].options| then []
    else
      KidIsLater(t, n, k);
      Under(k, Addresses(t, t[n].options[k])) + AddressesOfKids(t, n, k + 1)
  }

  function Under(k: nat, addrs: seq<seq<nat>>): seq<seq<nat>> {
    seq(|addrs|, i requires 0 <= i < |addrs| => [k] + addrs[i])
  }

  ghost predicate Prints(t: Tree, n: Id, addr: seq<nat>)
    requires Dumpable(t, n)
  {
    Locate(t, n, addr).At? && t[Locate(t, n, addr).param].hasCallback
  }

  /** The dump reaches exactly the params with a callback that can be reached without entering a `no`. */
  lemma {:induction false} DumpIsComplete(t: Tree, n: Id, addr: seq<nat>)
    requires Dumpable(t, n)
    ensures addr in Addresses(t, n) <==> Prints(t, n, addr)
    decreases |t| - n, 1, 0
  {
    if !t[n].kind.NoCmd? {
      KidsAreComplete(t, n, CHILDREN_START_INDEX, addr);
    }
  }

  lemma {:induction false} KidsAreComplete(t: Tree, n: Id, k: nat, addr: seq<nat>)
    requires Dumpable(t, n) && !t[n].kind.NoCmd? && k >= CHILDREN_START_INDEX
    ensures addr in AddressesOfKids(t, n, k) <==> addr != [] && addr[0] >= k && Prints(t, n, addr)
    decreases |t| - n, 0, |t[n].options| - k
  {
    if k < |t[n].options| {
      KidIsLater(t, n, k);
      KidsAreComplete(t, n, k + 1, addr);
      var first := Addresses(t, t[n].options[k]);
      InEither(Under(k, first), AddressesOfKids(t, n, k + 1), addr);
      UnderMeans(k, first, addr);
      if addr != [] && addr[0] == k {
        DumpIsComplete(t, t[n].options[k], addr[1..]);
        PrintsBelow(t, n, addr);
      }
    } else {
      NothingBeyond(t, n, k, addr);
    }
  }

  lemma InEither(a: seq<seq<nat>>, b: seq<seq<nat>>, addr: seq<nat>)
    ensures addr in a + b <==> addr in a || addr in b
  {}

  lemma NothingBeyond(t: Tree, n: Id, k: nat, addr: seq<nat>)
    requires Dumpable(t, n) && !t[n].kind.NoCmd? && k >= |t[n].options| && k >= CHILDREN_START_INDEX
    ensures addr !in AddressesOfKids(t, n, k)
    ensures addr != [] && addr[0] >= k ==> !Prints(t, n, addr)
  {}

  lemma PrintsBelow(t: Tree, n: Id, addr: seq<nat>)
    requires Dumpable(t, n) && !t[n].kind.NoCmd?
    requires addr != [] && CHILDREN_START_INDEX <= addr[0] < |t[n].options|
    ensures Dumpable(t, t[n].options[addr[0]])
    ensures Prints(t, n, addr) <==> Prints(t, t[n].options[addr[0]], addr[1..])
  {
    KidIsLater(t, n, addr[0]);
  }

  lemma UnderMeans(k: nat, addrs: seq<seq<nat>>, addr: seq<nat>)
    ensures addr in Under(k, addrs) <==> addr != [] && addr[0] == k && addr[1..] in addrs
  {
    if addr in Under(k, addrs) {
      var i :| 0 <= i < |addrs| && Under(k, addrs)[i] == addr;
      assert addr[1..] == addrs[i];
    }
    if addr != [] && addr[0] == k && addr[1..] in addrs {
      var i :| 0 <= i < |addrs| && addrs[i] == addr[1..];
      assert addr == [k] + addrs[i] == Under(k, addrs)[i];
    }
  }

  lemma UnderIsDistinct(k: nat, addrs: seq<seq<nat>>)
    requires Distinct(addrs)
    ensures Distinct(Under(k, addrs))
  {
    forall i, j | 0 <= i < j < |addrs|
      ensures Under(k, addrs)[i] != Under(k, addrs)[j]
    {
      assert Under(k, addrs)[i][1..] == addrs[i] && Under(k, addrs)[j][1..] == addrs[j];
    }
  }

  // ---- one address per param ----

  lemma {:induction false} AncestorTrans(t: Tree, x: Id, y: Id, p: Id)
    requires y < |t| && p < |t| && IsAncestor(t, x, y) && IsAncestor(t, y, p)
    ensures IsAncestor(t, x, p)
    decreases p
  {
    if y != p {
      AncestorTrans(t, x, y, t[p].parent);
    }
  }

  /** Two siblings have no descendant in common. */
  lemma {:induction false} SiblingsAreApart(t: Tree, x: Id, y: Id, p: Id)
    requires x < |t| && y < |t| && p < |t| && IsAncestor(t, x, p) && IsAncestor(t, y, p)
    requires t[x].parent == t[y].parent && t[x].parent < x && t[x].parent < y
    ensures x == y
    decreases p
  {
    if x == p && y != p {
      AncestorIsEarlier(t, y, t[p].parent);
    } else if y == p && x != p {
      AncestorIsEarlier(t, x, t[p].parent);
    } else if x != p {
      SiblingsAreApart(t, x, y, t[p].parent);
    }
  }

  /** A child's parent is the param it was reached from, or the root behind the do-hook. */
  lemma KidsParent(t: Tree, n: Id, k: nat)
    requires Dumpable(t, n) && !t[n].kind.NoCmd? && CHILDREN_START_INDEX <= k < |t[n].options|
    ensures var c := t[n].options[k];
            CONFIG <= c < |t| && t[c].parent == Anchor(t, n) < c
  {
    assert OptionsOk(t, n);
    assert ParentOk(t, t[n].options[k]);
  }

  /** Whatever an address leads to is below the param it starts from. */
  lemma {:induction false} LocatedBelow(t: Tree, n: Id, addr: seq<nat>)
    requires Dumpable(t, n) && n >= CONFIG && Locate(t, n, addr).At?
    ensures IsAncestor(t, n, Locate(t, n, addr).param)
    decreases |addr|
  {
    if addr != [] {
      KidIsLater(t, n, addr[0]);
      KidsParent(t, n, addr[0]);
      var c := t[n].options[addr[0]];
      LocatedBelow(t, c, addr[1..]);
      assert IsAncestor(t, n, c);
      AncestorTrans(t, n, c, Locate(t, n, addr).param);
    }
  }

  lemma LocatedLater(t: Tree, n: Id, addr: seq<nat>)
    requires Dumpable(t, n) && Locate(t, n, addr).At? && addr != []
    ensures n < Locate(t, n, addr).param
  {
    KidIsLater(t, n, addr[0]);
    KidsParent(t, n, addr[0]);
    LocatedBelow(t, t[n].options[addr[0]], addr[1..]);
    AncestorIsEarlier(t, t[n].options[addr[0]], Locate(t, n, addr).param);
  }

  /** In a tree where no child stands in two slots, no two addresses lead to one param. */
  lemma {:induction false} OneAddress(t: Tree, n: Id, a: seq<nat>, b: seq<nat>)
    requires Dumpable(t, n) && NoRepeats(t)
    requires Locate(t, n, a).At? && Locate(t, n, a) == Locate(t, n, b)
    ensures a == b
    decreases |a|
  {
    if a == [] || b == [] {
      if a != [] {
        LocatedLater(t, n, a);
      } else if b != [] {
        LocatedLater(t, n, b);
      }
    } else {
      SameFirstSlot(t, n, a, b);
      KidIsLater(t, n, a[0]);
      OneAddress(t, t[n].options[a[0]], a[1..], b[1..]);
      assert a == [a[0]] + a[1..] && b == [b[0]] + b[1..];
    }
  }

  lemma SameFirstSlot(t: Tree, n: Id, a: seq<nat>, b: seq<nat>)
    requires Dumpable(t, n) && NoRepeats(t) && a != [] && b != []
    requires Locate(t, n, a).At? && Locate(t, n, a) == Locate(t, n, b)
    ensures a[0] == b[0] && CHILDREN_START_INDEX <= a[0] < |t[n].options|
  {
    var x, y := t[n].options[a[0]], t[n].options[b[0]];
    KidIsLater(t, n, a[0]);
    KidIsLater(t, n, b[0]);
    KidsParent(t, n, a[0]);
    KidsParent(t, n, b[0]);
    LocatedBelow(t, x, a[1..]);
    LocatedBelow(t, y, b[1..]);
    SiblingsAreApart(t, x, y, Locate(t, n, a).param);
    assert KidsDistinct(t, n);
  }

  /** ... each of them once ... */
  ghost predicate EachOnce(t: Tree, n: Id, addrs: seq<seq<nat>>)
    requires Dumpable(t, n)
  {
    forall i, j | 0 <= i < j < |addrs| :: Locate(t, n, addrs[i]) != Locate(t, n, addrs[j])
  }

  lemma DumpPrintsOnce(t: Tree, n: Id)
    requires Dumpable(t, n) && NoRepeats(t)
    ensures EachOnce(t, n, Addresses(t, n))
  {
    var addrs := Addresses(t, n);
    AddressesAreDistinct(t, n);
    forall i, j | 0 <= i < j < |addrs|
      ensures Locate(t, n, addrs[i]) != Locate(t, n, addrs[j])
    {
      DumpIsComplete(t, n, addrs[i]);
      if Locate(t, n, addrs[i]) == Locate(t, n, addrs[j]) {
        OneAddress(t, n, addrs[i], addrs[j]);
      }
    }
  }

  lemma {:induction false} AddressesAreDistinct(t: Tree, n: Id)
    requires Dumpable(t, n)
    ensures Distinct(Addresses(t, n))
    decreases |t| - n, 1, 0
  {
    if !t[n].kind.NoCmd? {
      KidsPrintOnce(t, n, CHILDREN_START_INDEX);
      KidsAreComplete(t, n, CHILDREN_START_INDEX, []);
    }
  }

  lemma {:induction false} KidsPrintOnce(t: Tree, n: Id, k: nat)
    requires Dumpable(t, n) && !t[n].kind.NoCmd? && k >= CHILDREN_START_INDEX
    ensures Distinct(AddressesOfKids(t, n, k))
    decreases |t| - n, 0, |t[n].options| - k
  {
    if k < |t[n].options| {
      KidIsLater(t, n, k);
      AddressesAreDistinct(t, t[n].options[k]);
      KidsPrintOnce(t, n, k + 1);
      UnderIsDistinct(k, Addresses(t, t[n].options[k]));
      LaterSlots(t, n, k + 1);
      JoinDistinct(k, Addresses(t, t[n].options[k]), AddressesOfKids(t, n, k + 1));
    }
  }

  lemma LaterSlots(t: Tree, n: Id, k: nat)
    requires Dumpable(t, n) && !t[n].kind.NoCmd? && k >= CHILDREN_START_INDEX
    ensures forall addr | addr in AddressesOfKids(t, n, k) :: addr != [] && addr[0] >= k
  {
    forall addr | addr in AddressesOfKids(t, n, k)
      ensures addr != [] && addr[0] >= k
    {
      KidsAreComplete(t, n, k, addr);
    }
  }

  lemma JoinDistinct(k: nat, first: seq<seq<nat>>, rest: seq<seq<nat>>)
    requires Distinct(Under(k, first)) && Distinct(rest)
    requires forall addr | addr in rest :: addr != [] && addr[0] > k
    ensures Distinct(Under(k, first) + rest)
  {
    forall i, j | 0 <= i < |first| && 0 <= j < |rest|
      ensures Under(k, first)[i] != rest[j]
    {
      assert rest[j] in rest && Under(k, first)[i][0] == k;
    }
  }

  /** ... and prints for each exactly the tokens from the start of the dump down to it. */
  ghost predicate PrintsPaths(t: Tree, n: Id, prefix: seq<string>, lines: seq<seq<string>>, addrs: seq<seq<nat>>) {
    && Dumpable(t, n) && |lines| == |addrs|
    && forall i | 0 <= i < |addrs| ::
         Locate(t, n, addrs[i]).At? && lines[i] == prefix + TokenPath(t, n, addrs[i])
  }

  lemma {:induction false} LinesArePaths(t: Tree, n: Id, prefix: seq<string>)
    requires Dumpable(t, n)
    ensures PrintsPaths(t, n, prefix, Lines(t, n, prefix), Addresses(t, n))
    decreases |t| - n, 1, 0
  {
    if !t[n].kind.NoCmd? {
      LinesOfKidsArePaths(t, n, prefix, CHILDREN_START_INDEX);
    }
  }

  lemma {:induction false} LinesOfKidsArePaths(t: Tree, n: Id, prefix: seq<string>, k: nat)
    requires Dumpable(t, n) && !t[n].kind.NoCmd? && k >= CHILDREN_START_INDEX
    ensures PrintsPaths(t, n, prefix, LinesOfKids(t, n, prefix + [TokenOf(t[n])], k), AddressesOfKids(t, n, k))
    decreases |t| - n, 0, |t[n].options| - k
  {
    if k < |t[n].options| {
      KidIsLater(t, n, k);
      var kid, path := t[n].options[k], prefix + [TokenOf(t[n])];
      LinesArePaths(t, kid, path);
      LinesOfKidsArePaths(t, n, prefix, k + 1);
      KidPaths(t, n, k, prefix, Lines(t, kid, path), Addresses(t, kid));
      JoinPaths(t, n, prefix, Lines(t, kid, path), Under(k, Addresses(t, kid)),
                LinesOfKids(t, n, path, k + 1), AddressesOfKids(t, n, k + 1));
    }
  }

  lemma JoinPaths(t: Tree, n: Id, prefix: seq<string>, lines: seq<seq<string>>, addrs: seq<seq<nat>>,
                  moreLines: seq<seq<string>>, moreAddrs: seq<seq<nat>>)
    requires PrintsPaths(t, n, prefix, lines, addrs) && PrintsPaths(t, n, prefix, moreLines, moreAddrs)
    ensures PrintsPaths(t, n, prefix, lines + moreLines, addrs + moreAddrs)
  {}

  lemma KidPaths(t: Tree, n: Id, k: nat, prefix: seq<string>, lines: seq<seq<string>>, addrs: seq<seq<nat>>)
    requires Dumpable(t, n) && !t[n].kind.NoCmd? && CHILDREN_START_INDEX <= k < |t[n].options|
    requires PrintsPaths(t, t[n].options[k], prefix + [TokenOf(t[n])], lines, addrs)
    ensures PrintsPaths(t, n, prefix, lines, Under(k, addrs))
  {
    forall i | 0 <= i < |addrs|
      ensures Locate(t, n, Under(k, addrs)[i]).At?
      ensures lines[i] == prefix + TokenPath(t, n, Under(k, addrs)[i])
    {
      var addr := Under(k, addrs)[i];
      assert addr[1..] == addrs[i];
      Associate(prefix, [TokenOf(t[n])], TokenPath(t, t[n].options[k], addrs[i]));
    }
  }

  /** Token by token: the name of a command, and a leaf's in angle brackets, for every param on the way. */
  lemma {:induction false} TokensAre(t: Tree, n: Id, addr: seq<nat>)
    requires Dumpable(t, n) && Locate(t, n, addr).At?
    ensures |TokenPath(t, n, addr)| == |addr| + 1
    ensures forall i | 0 <= i <= |addr| ::
              var place := Locate(t, n, addr[..i]);
              && place.At?
              && TokenPath(t, n, addr)[i]
              == if t[place.param].kind.Leaf? then "<" + t[place.param].name + ">" else t[place.param].name
    decreases |addr|
  {
    assert addr[..0] == [];
    if addr != [] {
      KidIsLater(t, n, addr[0]);
      var kid, rest := t[n].options[addr[0]], addr[1..];
      TokensAre(t, kid, rest);
      forall i | 0 < i <= |addr|
        ensures Locate(t, n, addr[..i]) == Locate(t, kid, rest[..i - 1])
        ensures TokenPath(t, n, addr)[i] == TokenPath(t, kid, rest)[i - 1]
      {
        assert addr[..i][1..] == rest[..i - 1];
      }
    }
  }

  // ---- the order of the dump ----

  /** A param comes behind everything below it, and siblings come in the order of their slots. */
  predicate Precedes(a: seq<nat>, b: seq<nat>) {
    a != [] && (b == [] || a[0] < b[0] || (a[0] == b[0] && Precedes(a[1..], b[1..])))
  }

  ghost predicate InOrder(addrs: seq<seq<nat>>) {
    forall i, j | 0 <= i < j < |addrs| :: Precedes(addrs[i], addrs[j])
  }

  lemma {:induction false} DumpIsInOrder(t: Tree, n: Id)
    requires Dumpable(t, n)
    ensures InOrder(Addresses(t, n))
    decreases |t| - n, 1, 0
  {
    if !t[n].kind.NoCmd? {
      KidsAreInOrder(t, n, CHILDREN_START_INDEX);
      LaterSlots(t, n, CHILDREN_START_INDEX);
      var kids := AddressesOfKids(t, n, CHILDREN_START_INDEX);
      assert forall i | 0 <= i < |kids| :: kids[i] in kids;
    }
  }

  lemma {:induction false} KidsAreInOrder(t: Tree, n: Id, k: nat)
    requires Dumpable(t, n) && !t[n].kind.NoCmd? && k >= CHILDREN_START_INDEX
    ensures InOrder(AddressesOfKids(t, n, k))
    decreases |t| - n, 0, |t[n].options| - k
  {
    if k < |t[n].options| {
      KidIsLater(t, n, k);
      DumpIsInOrder(t, t[n].options[k]);
      KidsAreInOrder(t, n, k + 1);
      LaterSlots(t, n, k + 1);
      JoinInOrder(k, Addresses(t, t[n].options[k]), AddressesOfKids(t, n, k + 1));
    }
  }

  lemma JoinInOrder(k: nat, first: seq<seq<nat>>, rest: seq<seq<nat>>)
    requires InOrder(first) && InOrder(rest)
    requires forall addr | addr in rest :: addr != [] && addr[0] > k
    ensures InOrder(Under(k, first) + rest)
  {
    var own := Under(k, first);
    forall i, j | 0 <= i < j < |own + rest|
      ensures Precedes((own + rest)[i], (own + rest)[j])
    {
      if j < |own| {
        assert own[i][1..] == first[i] && own[j][1..] == first[j];
      } else if i < |own| {
        assert rest[j - |own|] in rest;
      }
    }
  }
}
