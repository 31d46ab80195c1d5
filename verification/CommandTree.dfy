/** The command tree (CommandParser/cmd_hier.h, cmd_hier.c). A `param_t *` is an index into the table of
    params; params are numbered so that a parent comes before its children. */
module CommandTree {
  import opened Sequences

  type Id = nat

  const ROOT: Id := 0
  const MODE: Id := 1
  const SUBOPTIONS: Id := 2
  const EXPANSION: Id := 3
  const DO_HOOK: Id := 4
  const CONFIG: Id := 5
  const SHOW: Id := 6
  const DEBUG: Id := 7
  const CLEAR: Id := 8
  const REPEAT: Id := 9

  const MAX_OPTION_SIZE: nat := 16
  const CHILDREN_START_INDEX: nat := 3
  const POSSIBILITY_ARRAY_SIZE: nat := 10

  datatype LeafType = INT | STRING | IPV4 | FLOAT | IPV6 | BOOLEAN | INVALID

  datatype Kind = Cmd | Leaf | NoCmd

  /** What a handler feeds back to the parser while it runs: nothing, one recorded line, or the lines of a
      test script, each of which is asserted to complete. */
  datatype Rerun = Inert | OneLine | Script

  /** `options` lists the slots up to the first empty one, where matching stops: the three capability slots
      and then the children. A leaf's `name` is its leaf id. */
  datatype Param = Param(
    kind: Kind, name: string, leafType: LeafType,
    hasCallback: bool, rerun: Rerun, hasDisplay: bool, cmdCode: int,
    options: seq<Id>, parent: Id)

  type Tree = seq<Param>

  predicate InTree(t: Tree, n: Id) {
    n < |t| && (n == ROOT || n >= CONFIG)
  }

  /** The param whose children `n` offers: the negated param for a `no`, the root for the do-hook. */
  function Anchor(t: Tree, n: Id): Id
    requires n < |t|
  {
    if n == DO_HOOK then ROOT else if t[n].kind.NoCmd? then t[n].parent else n
  }

  /** A capability param: a command without options of its own. */
  predicate IsCapability(p: Param, name: string) {
    p.kind.Cmd? && p.name == name && p.hasCallback && p.options == []
  }

  predicate OptionsOk(t: Tree, n: Id)
    requires n < |t|
  {
    var options := t[n].options;
    && |options| <= MAX_OPTION_SIZE
    && (options != [] ==>
          && |options| >= CHILDREN_START_INDEX
          && options[0] == (if t[n].kind.NoCmd? || n == DO_HOOK then SUBOPTIONS else MODE)
          && options[1] == SUBOPTIONS && options[2] == EXPANSION)
    && forall k | CHILDREN_START_INDEX <= k < |options| ::
         CONFIG <= options[k] < |t| && t[options[k]].parent == Anchor(t, n)
  }

  predicate ParentOk(t: Tree, n: Id)
    requires n < |t|
  {
    && InTree(t, t[n].parent) && t[n].parent < n
    && !t[t[n].parent].kind.NoCmd?
    && (t[n].kind.NoCmd? ==> t[n].parent != ROOT && t[n].hasCallback)
  }

  /** Commands can be negated in the config branch only. */
  predicate NegationOk(t: Tree, n: Id)
    requires n < |t|
  {
    t[n].kind.NoCmd? ==> Branch(t, n) == CONFIG
  }

  predicate IsHook(t: Tree, n: Id, name: string)
    requires n < |t|
  {
    t[n].kind.Cmd? && t[n].parent == ROOT && t[n].name == name
  }

  /** What init_libcli and the registration functions build. */
  predicate WellFormed(t: Tree) {
    && |t| > REPEAT
    && t[ROOT].kind.Cmd? && !t[ROOT].hasCallback
    && IsCapability(t[MODE], "/") && IsCapability(t[SUBOPTIONS], "?") && IsCapability(t[EXPANSION], ".")
    && t[DO_HOOK].kind.Cmd? && !t[DO_HOOK].hasCallback
    && t[DO_HOOK].options == [SUBOPTIONS, SUBOPTIONS, EXPANSION, SHOW, DEBUG, CLEAR]
    && IsHook(t, CONFIG, "config") && t[CONFIG].hasCallback
    && IsHook(t, SHOW, "show") && IsHook(t, DEBUG, "debug") && IsHook(t, CLEAR, "clear")
    && IsHook(t, REPEAT, "repeat")
    && (forall n | CONFIG <= n < |t| :: ParentOk(t, n))
    && OptionsOk(t, ROOT) && (forall n | DO_HOOK <= n < |t| :: OptionsOk(t, n))
    && (forall n | CONFIG <= n < |t| :: NegationOk(t, n))
  }

  /** No child stands in two slots of one param, as long as every param is registered once. */
  predicate KidsDistinct(t: Tree, n: Id)
    requires n < |t|
  {
    forall i, j | CHILDREN_START_INDEX <= i < j < |t[n].options| :: t[n].options[i] != t[n].options[j]
  }

  predicate NoRepeats(t: Tree) {
    forall n | 0 <= n < |t| :: KidsDistinct(t, n)
  }

  /** get_current_branch_hook: the zero-level command a param belongs to. */
  function Branch(t: Tree, n: Id): Id
    decreases n
  {
    if CONFIG <= n < |t| && t[n].parent != ROOT && t[n].parent < n then Branch(t, t[n].parent) else n
  }

  /** `x` is on the way from the root down to `p`, `p` included. */
  ghost predicate IsAncestor(t: Tree, x: Id, p: Id)
    requires p < |t|
    decreases p
  {
    x == p || (CONFIG <= p && t[p].parent < p && IsAncestor(t, x, t[p].parent))
  }

  lemma {:induction false} AncestorIsEarlier(t: Tree, x: Id, p: Id)
    requires p < |t| && IsAncestor(t, x, p)
    ensures x <= p
    decreases p
  {
    if x != p {
      AncestorIsEarlier(t, x, t[p].parent);
    }
  }

  // ---- one token ----

  datatype Match = Found(param: Id) | NotFound | TooMany

  /** Where the first command of exactly this name is, or the length if there is none. */
  function FirstExact(t: Tree, options: seq<Id>, token: string): (k: nat)
    requires forall i | 0 <= i < |options| :: options[i] < |t|
    ensures k <= |options|
  {
    if options == [] || (!t[options[0]].kind.Leaf? && t[options[0]].name == token) then 0
    else 1 + FirstExact(t, options[1..], token)
  }

  /** The commands the token abbreviates, in order. */
  function Abbreviated(t: Tree, options: seq<Id>, token: string): seq<Id>
    requires forall i | 0 <= i < |options| :: options[i] < |t|
  {
    if options == [] then []
    else
      var first := if !t[options[0]].kind.Leaf? && token <= t[options[0]].name then [options[0]] else [];
      first + Abbreviated(t, options[1..], token)
  }

  /** The last leaf among the options, which takes any token no command matches. */
  function LastLeaf(t: Tree, options: seq<Id>): Match
    requires forall i | 0 <= i < |options| :: options[i] < |t|
    decreases |options|
  {
    if options == [] then NotFound
    else if t[options[|options| - 1]].kind.Leaf? then Found(options[|options| - 1])
    else LastLeaf(t, options[..|options| - 1])
  }

  /** find_matching_param. An exact name wins; otherwise a single abbreviation, otherwise the one the user
      picks; a leaf only when no command matches. Ten candidates overrun the array of possibilities. */
  function FindMatch(t: Tree, options: seq<Id>, token: string, choice: int): Match
    requires forall i | 0 <= i < |options| :: options[i] < |t|
  {
    var k := FirstExact(t, options, token);
    var candidates := Abbreviated(t, options[..k], token);
    if |candidates| >= POSSIBILITY_ARRAY_SIZE then TooMany
    else if k < |options| then Found(options[k])
    else if candidates == [] then LastLeaf(t, options)
    else if |candidates| == 1 then Found(candidates[0])
    else if 0 <= choice < |candidates| then Found(candidates[choice])
    else NotFound
  }

  lemma {:induction false} AbbreviatedAreOptions(t: Tree, options: seq<Id>, token: string)
    requires forall i | 0 <= i < |options| :: options[i] < |t|
    ensures forall c | c in Abbreviated(t, options, token) ::
              c in options && !t[c].kind.Leaf? && token <= t[c].name
    decreases |options|
  {
    if options != [] {
      AbbreviatedAreOptions(t, options[1..], token);
    }
  }

  lemma {:induction false} FirstExactMeans(t: Tree, options: seq<Id>, token: string)
    requires forall i | 0 <= i < |options| :: options[i] < |t|
    ensures var k := FirstExact(t, options, token);
            && (forall i | 0 <= i < k :: t[options[i]].kind.Leaf? || t[options[i]].name != token)
            && (k < |options| ==> !t[options[k]].kind.Leaf? && t[options[k]].name == token)
    decreases |options|
  {
    if options != [] && FirstExact(t, options, token) > 0 {
      FirstExactMeans(t, options[1..], token);
    }
  }

  lemma {:induction false} LastLeafMeans(t: Tree, options: seq<Id>)
    requires forall i | 0 <= i < |options| :: options[i] < |t|
    ensures !LastLeaf(t, options).TooMany?
    ensures LastLeaf(t, options).Found? ==>
              LastLeaf(t, options).param in options && t[LastLeaf(t, options).param].kind.Leaf?
    decreases |options|
  {
    if options != [] && !t[options[|options| - 1]].kind.Leaf? {
      LastLeafMeans(t, options[..|options| - 1]);
    }
  }

  /** Whatever matches is one of the options, and a matching command is abbreviated by the token. */
  lemma FoundIsAnOption(t: Tree, options: seq<Id>, token: string, choice: int)
    requires forall i | 0 <= i < |options| :: options[i] < |t|
    requires FindMatch(t, options, token, choice).Found?
    ensures var c := FindMatch(t, options, token, choice).param;
            c in options && (t[c].kind.Leaf? || token <= t[c].name)
  {
    var k := FirstExact(t, options, token);
    FirstExactMeans(t, options, token);
    AbbreviatedAreOptions(t, options[..k], token);
    LastLeafMeans(t, options);
    var c := FindMatch(t, options, token, choice).param;
    assert c in Abbreviated(t, options[..k], token) ==> c in options[..k];
  }

  ghost predicate Names(t: Tree, c: Id, token: string)
    requires c < |t|
  {
    !t[c].kind.Leaf? && t[c].name == token
  }

  ghost predicate Abbreviates(t: Tree, c: Id, token: string)
    requires c < |t|
  {
    !t[c].kind.Leaf? && token <= t[c].name
  }

  /** Candidates are gathered in order, and only from commands the token abbreviates. */
  lemma {:induction false} OneCandidate(t: Tree, options: seq<Id>, token: string, i: nat)
    requires forall j | 0 <= j < |options| :: options[j] < |t|
    requires i < |options| && Abbreviates(t, options[i], token)
    requires forall j | 0 <= j < |options| && j != i :: !Abbreviates(t, options[j], token)
    ensures Abbreviated(t, options, token) == [options[i]]
    decreases |options|
  {
    if i == 0 {
      NoCandidate(t, options[1..], token);
    } else {
      assert !Abbreviates(t, options[0], token);
      OneCandidate(t, options[1..], token, i - 1);
    }
  }

  lemma {:induction false} NoCandidate(t: Tree, options: seq<Id>, token: string)
    requires forall j | 0 <= j < |options| :: options[j] < |t|
    requires forall j | 0 <= j < |options| :: !Abbreviates(t, options[j], token)
    ensures Abbreviated(t, options, token) == []
    decreases |options|
  {
    if options != [] {
      assert !Abbreviates(t, options[0], token);
      NoCandidate(t, options[1..], token);
    }
  }

  lemma {:induction false} SomeCandidate(t: Tree, options: seq<Id>, token: string, i: nat)
    requires forall j | 0 <= j < |options| :: options[j] < |t|
    requires i < |options| && Abbreviates(t, options[i], token)
    ensures Abbreviated(t, options, token) != []
    decreases |options|
  {
    if i > 0 {
      SomeCandidate(t, options[1..], token, i - 1);
    }
  }

  /** An exact name wins over every abbreviation. */
  lemma ExactNameWins(t: Tree, options: seq<Id>, token: string, choice: int, i: nat)
    requires forall j | 0 <= j < |options| :: options[j] < |t|
    requires i < |options| && Names(t, options[i], token)
    ensures var m := FindMatch(t, options, token, choice);
            m.TooMany? || (m.Found? && m.param < |t| && Names(t, m.param, token))
  {
    FirstExactMeans(t, options, token);
  }

  /** A token that abbreviates exactly one command means that command, whatever leaves there are. */
  lemma UniqueAbbreviationWins(t: Tree, options: seq<Id>, token: string, choice: int, i: nat)
    requires forall j | 0 <= j < |options| :: options[j] < |t|
    requires i < |options| && Abbreviates(t, options[i], token)
    requires forall j | 0 <= j < |options| && j != i :: !Abbreviates(t, options[j], token)
    ensures FindMatch(t, options, token, choice) == Found(options[i])
  {
    FirstExactMeans(t, options, token);
    var k := FirstExact(t, options, token);
    if k < |options| {
      assert Abbreviates(t, options[k], token);
      assert k == i;
      forall j | 0 <= j < k
        ensures !Abbreviates(t, options[..k][j], token)
      {
        assert options[..k][j] == options[j];
      }
      NoCandidate(t, options[..k], token);
    } else {
      assert options[..k] == options;
      OneCandidate(t, options, token, i);
    }
  }

  /** A leaf takes a token exactly when no command is abbreviated by it: the last leaf among the options. */
  lemma LeafTakesTheRest(t: Tree, options: seq<Id>, token: string, choice: int)
    requires forall j | 0 <= j < |options| :: options[j] < |t|
    ensures var m := FindMatch(t, options, token, choice);
            && (m.Found? ==> m.param < |t|)
            && (m.Found? && t[m.param].kind.Leaf? ==>
                  m == LastLeaf(t, options) && forall j | 0 <= j < |options| :: !Abbreviates(t, options[j], token))
            && ((forall j | 0 <= j < |options| :: !Abbreviates(t, options[j], token)) ==> m == LastLeaf(t, options))
  {
    var k := FirstExact(t, options, token);
    FirstExactMeans(t, options, token);
    AbbreviatedAreOptions(t, options[..k], token);
    if FindMatch(t, options, token, choice).Found? {
      FoundIsAnOption(t, options, token, choice);
    }
    if forall j | 0 <= j < |options| :: !Abbreviates(t, options[j], token) {
      assert k < |options| ==> Abbreviates(t, options[k], token);
      assert options[..k] == options;
      NoCandidate(t, options, token);
    } else if k == |options| {
      var j :| 0 <= j < |options| && Abbreviates(t, options[j], token);
      assert options[..k] == options;
      SomeCandidate(t, options, token, j);
    }
  }

  ghost predicate InTable(t: Tree, options: seq<Id>) {
    forall i | 0 <= i < |options| :: options[i] < |t|
  }

  lemma {:induction false} FirstExactAppend(t: Tree, a: seq<Id>, b: seq<Id>, token: string)
    requires InTable(t, a) && InTable(t, b)
    ensures FirstExact(t, a + b, token)
         == if FirstExact(t, a, token) < |a| then FirstExact(t, a, token) else |a| + FirstExact(t, b, token)
    decreases |a|
  {
    if a == [] {
      assert a + b == b;
    } else {
      assert (a + b)[1..] == a[1..] + b;
      FirstExactAppend(t, a[1..], b, token);
    }
  }

  lemma {:induction false} AbbreviatedAppend(t: Tree, a: seq<Id>, b: seq<Id>, token: string)
    requires InTable(t, a) && InTable(t, b)
    ensures Abbreviated(t, a + b, token) == Abbreviated(t, a, token) + Abbreviated(t, b, token)
    decreases |a|
  {
    if a == [] {
      assert a + b == b;
    } else {
      assert (a + b)[1..] == a[1..] + b;
      AbbreviatedAppend(t, a[1..], b, token);
      var first := if !t[a[0]].kind.Leaf? && token <= t[a[0]].name then [a[0]] else [];
      Associate(first, Abbreviated(t, a[1..], token), Abbreviated(t, b, token));
    }
  }

  lemma {:induction false} LastLeafAppend(t: Tree, a: seq<Id>, b: seq<Id>)
    requires InTable(t, a) && InTable(t, b)
    ensures LastLeaf(t, a + b) == if LastLeaf(t, b).Found? then LastLeaf(t, b) else LastLeaf(t, a)
    decreases |b|
  {
    LastLeafMeans(t, b);
    if b == [] {
      assert a + b == a;
    } else {
      assert (a + b)[..|a + b| - 1] == a + b[..|b| - 1];
      assert (a + b)[|a + b| - 1] == b[|b| - 1];
      LastLeafAppend(t, a, b[..|b| - 1]);
    }
  }

  /** `picks` are the positions of the options that the token abbreviates, in order. */
  ghost predicate Picks(t: Tree, options: seq<Id>, token: string, picks: seq<nat>) {
    && (forall i, j | 0 <= i < j < |picks| :: picks[i] < picks[j])
    && (forall k: nat :: k in picks <==> k < |options| && options[k] < |t| && Abbreviates(t, options[k], token))
  }

  lemma PicksSnoc(t: Tree, init: seq<Id>, c: Id, token: string, picks: seq<nat>)
    requires Picks(t, init, token, picks) && c < |t|
    ensures Picks(t, init + [c], token, picks + if Abbreviates(t, c, token) then [|init|] else [])
  {
    var own := if Abbreviates(t, c, token) then [|init|] else [];
    forall i | 0 <= i < |picks|
      ensures picks[i] < |init|
    {
      var k := picks[i];
      assert k in picks;
    }
    forall k: nat
      ensures k in picks + own <==> k < |init + [c]| && (init + [c])[k] < |t| && Abbreviates(t, (init + [c])[k], token)
    {
      assert k in picks + own <==> k in picks || k in own;
    }
  }

  lemma {:induction false} AbbreviatedPicks(t: Tree, options: seq<Id>, token: string) returns (picks: seq<nat>)
    requires InTable(t, options)
    ensures Picks(t, options, token, picks) && |Abbreviated(t, options, token)| == |picks|
    ensures forall i | 0 <= i < |picks| ::
              picks[i] < |options| && Abbreviated(t, options, token)[i] == options[picks[i]]
    decreases |options|
  {
    picks := [];
    if options != [] {
      var init, c := options[..|options| - 1], options[|options| - 1];
      assert options == init + [c];
      picks := AbbreviatedPicks(t, init, token);
      PicksSnoc(t, init, c, token, picks);
      AbbreviatedAppend(t, init, [c], token);
      assert [c][1..] == [];
      picks := picks + if Abbreviates(t, c, token) then [|init|] else [];
    }
  }

  lemma {:induction false} LastLeafPosition(t: Tree, options: seq<Id>) returns (last: nat)
    requires InTable(t, options)
    ensures last <= |options|
    ensures forall i | 0 <= i < |options| && t[options[i]].kind.Leaf? :: i <= last < |options|
    ensures last < |options| ==> t[options[last]].kind.Leaf?
    ensures LastLeaf(t, options) == if last < |options| then Found(options[last]) else NotFound
    decreases |options|
  {
    last := |options|;
    if options != [] {
      var init := options[..|options| - 1];
      if t[options[|options| - 1]].kind.Leaf? {
        last := |options| - 1;
      } else {
        last := LastLeafPosition(t, init);
        assert last < |init| ==> init[last] == options[last];
        assert forall i | 0 <= i < |init| :: init[i] == options[i];
        if last == |init| {
          last := |options|;
        }
      }
    }
  }

  /** The whole matching rule, by positions. `exact` is the first command of the token's very name, if any; `picks`
      the commands before it that the token abbreviates, in order; `last` the last leaf, if any. Ten picks are too
      many; then the exact name wins, a single pick, the pick the user chose, and without any pick the last leaf. */
  lemma MatchMeans(t: Tree, options: seq<Id>, token: string, choice: int)
    returns (exact: nat, picks: seq<nat>, last: nat)
    requires InTable(t, options)
    ensures exact <= |options| && last <= |options|
    ensures forall i | 0 <= i < exact :: t[options[i]].kind.Leaf? || t[options[i]].name != token
    ensures exact < |options| ==> !t[options[exact]].kind.Leaf? && t[options[exact]].name == token
    ensures forall i, j | 0 <= i < j < |picks| :: picks[i] < picks[j]
    ensures forall k: nat :: k in picks <==> k < exact && !t[options[k]].kind.Leaf? && token <= t[options[k]].name
    ensures forall i | 0 <= i < |options| && t[options[i]].kind.Leaf? :: i <= last < |options|
    ensures last < |options| ==> t[options[last]].kind.Leaf?
    ensures forall i | 0 <= i < |picks| :: picks[i] < |options|
    ensures FindMatch(t, options, token, choice)
         == if |picks| >= 10 then TooMany
            else if exact < |options| then Found(options[exact])
            else if |picks| == 1 then Found(options[picks[0]])
            else if 0 <= choice < |picks| then Found(options[picks[choice]])
            else if |picks| == 0 && last < |options| then Found(options[last])
            else NotFound
  {
    exact := FirstExact(t, options, token);
    FirstExactMeans(t, options, token);
    picks := AbbreviatedPicks(t, options[..exact], token);
    last := LastLeafPosition(t, options);
    forall i | 0 <= i < |picks|
      ensures picks[i] < exact
    {
      var k := picks[i];
      assert k in picks;
    }
  }

  // ---- branches and paths ----

  lemma BranchStep(t: Tree, n: Id)
    requires WellFormed(t) && CONFIG <= n < |t|
    ensures t[n].parent == ROOT ==> Branch(t, n) == n
    ensures t[n].parent != ROOT ==> Branch(t, n) == Branch(t, t[n].parent)
  {
    assert ParentOk(t, n);
  }

  /** The branch of a param is the one zero-level command above it. */
  lemma {:induction false} BranchMeans(t: Tree, n: Id, b: Id)
    requires WellFormed(t) && CONFIG <= n < |t| && b < |t|
    ensures Branch(t, n) == b <==> CONFIG <= b && t[b].parent == ROOT && IsAncestor(t, b, n)
    decreases n
  {
    BranchStep(t, n);
    assert ParentOk(t, n);
    if t[n].parent != ROOT {
      BranchMeans(t, t[n].parent, b);
    } else {
      assert CONFIG <= b ==> !IsAncestor(t, b, ROOT);
    }
  }

  lemma InConfig(t: Tree, n: Id)
    requires WellFormed(t) && CONFIG <= n < |t|
    ensures Branch(t, n) == CONFIG <==> IsAncestor(t, CONFIG, n)
  {
    BranchMeans(t, n, CONFIG);
  }

  /** A child's branch is its parent's, below the zero level. */
  lemma ChildBranch(t: Tree, n: Id, c: Id)
    requires WellFormed(t) && (n == ROOT || DO_HOOK <= n < |t|) && c in t[n].options && c >= CONFIG
    ensures c < |t| && t[c].parent == Anchor(t, n) && Anchor(t, n) < c
    ensures Anchor(t, n) == ROOT ==> Branch(t, c) == c
    ensures Anchor(t, n) != ROOT ==> Branch(t, c) == Branch(t, n)
  {
    assert OptionsOk(t, n);
    var k :| 0 <= k < |t[n].options| && t[n].options[k] == c;
    assert k >= CHILDREN_START_INDEX;
    assert ParentOk(t, c);
    BranchStep(t, c);
    if t[n].kind.NoCmd? {
      assert ParentOk(t, n);
      BranchStep(t, n);
    }
  }

  datatype Tlv = Tlv(leafType: LeafType, leafId: string, value: string)

  type Values = map<Id, string>

  /** A value holder; a leaf that was never given a value holds the empty string. */
  function ValueOf(values: Values, n: Id): string {
    if n in values then values[n] else ""
  }

  function LeafTlv(t: Tree, n: Id, value: string): Tlv
    requires n < |t|
  {
    Tlv(t[n].leafType, t[n].name, value)
  }

  function OwnTlv(t: Tree, values: Values, n: Id): seq<Tlv>
    requires n < |t|
  {
    if t[n].kind.Leaf? then [LeafTlv(t, n, ValueOf(values, n))] else []
  }

  /** The reference for the buffer: the leaf TLVs on the path from the root down to `n`, read off the tree
      and the leaves' value holders. */
  function PathTlvs(t: Tree, values: Values, n: Id): seq<Tlv>
    decreases n
  {
    if !(CONFIG <= n < |t|) || t[n].parent >= n then []
    else PathTlvs(t, values, t[n].parent) + OwnTlv(t, values, n)
  }

  /** A path's TLVs depend on the value holders of its own branch, up to its end, only. */
  lemma {:induction false} PathTlvsFrame(t: Tree, values: Values, others: Values, n: Id)
    requires WellFormed(t) && InTree(t, n)
    requires forall i | CONFIG <= i <= n && Branch(t, i) == Branch(t, n) :: ValueOf(values, i) == ValueOf(others, i)
    ensures PathTlvs(t, values, n) == PathTlvs(t, others, n)
    decreases n
  {
    if n != ROOT {
      assert ParentOk(t, n);
      BranchStep(t, n);
      if t[n].parent != ROOT {
        PathTlvsFrame(t, values, others, t[n].parent);
      }
    }
  }

  /** Entering a child extends the path by the child's own TLV, if it is a leaf; passing `no` adds nothing. */
  lemma PathTlvsChild(t: Tree, values: Values, n: Id, c: Id)
    requires WellFormed(t) && (n == ROOT || DO_HOOK <= n < |t|) && c in t[n].options && c >= CONFIG
    ensures c < |t|
    ensures PathTlvs(t, values, c)
         == PathTlvs(t, values, n) + OwnTlv(t, values, c)
  {
    ChildBranch(t, n, c);
    assert ParentOk(t, c);
    if n >= CONFIG {
      assert ParentOk(t, n);
    }
    if t[n].kind.NoCmd? {
      assert PathTlvs(t, values, n) == PathTlvs(t, values, t[n].parent) + [];
    }
  }
}
