/** Inserting `no` into a command line (CommandParser/cmd_hier.c:528-568, parser.c:172-177). */
module Negation {
  import opened CommandTree
  import opened CommandWalk
  import opened Registration

  /** A non-empty token that is neither of the capability characters does not see the capability slots. */
  lemma CapabilitiesAreInvisible(t: Tree, kind: Kind, token: string)
    requires WellFormed(t) && token != "" && token !in {"/", "?", "."}
    ensures InTable(t, Capabilities(kind))
    ensures FirstExact(t, Capabilities(kind), token) == CHILDREN_START_INDEX
    ensures Abbreviated(t, Capabilities(kind), token) == []
    ensures LastLeaf(t, Capabilities(kind)) == NotFound
  {
    var caps := Capabilities(kind);
    FirstExactMeans(t, caps, token);
    LastLeafMeans(t, caps);
    forall i | 0 <= i < |caps|
      ensures !(token <= t[caps[i]].name)
    {
      NoProperPrefix(token, t[caps[i]].name);
    }
    NothingAbbreviated(t, caps, token);
  }

  lemma {:induction false} NothingAbbreviated(t: Tree, options: seq<Id>, token: string)
    requires InTable(t, options) && forall i | 0 <= i < |options| :: !(token <= t[options[i]].name)
    ensures Abbreviated(t, options, token) == []
    decreases |options|
  {
    if options != [] {
      NothingAbbreviated(t, options[1..], token);
    }
  }

  lemma NoProperPrefix(token: string, name: string)
    requires |name| == 1 && token != "" && token != name
    ensures !(token <= name)
  {}

  /** Matching depends on where an exact name is, on the candidates before it, and on the last leaf. */
  lemma SameMatch(t: Tree, a: seq<Id>, b: seq<Id>, token: string, choice: int)
    requires InTable(t, a) && InTable(t, b)
    requires var j, k := FirstExact(t, a, token), FirstExact(t, b, token);
             && (j < |a| <==> k < |b|) && (j < |a| && k < |b| ==> a[j] == b[k])
             && Abbreviated(t, a[..j], token) == Abbreviated(t, b[..k], token)
    requires LastLeaf(t, a) == LastLeaf(t, b)
    ensures FindMatch(t, a, token, choice) == FindMatch(t, b, token, choice)
  {}

  /** What the capability slots cannot see, they do not change: matching goes by the children. */
  lemma MatchByChildren(t: Tree, kind: Kind, kids: seq<Id>, token: string, choice: int)
    requires WellFormed(t) && InTable(t, kids) && token != "" && token !in {"/", "?", "."}
    ensures InTable(t, Capabilities(kind) + kids)
    ensures FindMatch(t, Capabilities(kind) + kids, token, choice) == FindMatch(t, kids, token, choice)
  {
    CapabilitiesAreInvisible(t, kind, token);
    MatchBehindOthers(t, Capabilities(kind), kids, token, choice);
  }

  lemma CandidatesBehind(t: Tree, others: seq<Id>, kids: seq<Id>, token: string, k: nat)
    requires InTable(t, others) && InTable(t, kids) && Abbreviated(t, others, token) == [] && k <= |kids|
    ensures InTable(t, (others + kids)[..|others| + k])
    ensures Abbreviated(t, (others + kids)[..|others| + k], token) == Abbreviated(t, kids[..k], token)
  {
    assert (others + kids)[..|others| + k] == others + kids[..k];
    AbbreviatedAppend(t, others, kids[..k], token);
    assert [] + Abbreviated(t, kids[..k], token) == Abbreviated(t, kids[..k], token);
  }

  lemma LeafBehind(t: Tree, others: seq<Id>, kids: seq<Id>)
    requires InTable(t, others) && InTable(t, kids) && LastLeaf(t, others) == NotFound
    ensures LastLeaf(t, others + kids) == LastLeaf(t, kids)
  {
    LastLeafAppend(t, others, kids);
    LastLeafMeans(t, kids);
  }

  lemma MatchBehindOthers(t: Tree, others: seq<Id>, kids: seq<Id>, token: string, choice: int)
    requires InTable(t, others) && InTable(t, kids)
    requires FirstExact(t, others, token) == |others| && Abbreviated(t, others, token) == []
    requires LastLeaf(t, others) == NotFound
    ensures FindMatch(t, others + kids, token, choice) == FindMatch(t, kids, token, choice)
  {
    FirstExactAppend(t, others, kids, token);
    CandidatesBehind(t, others, kids, token, FirstExact(t, kids, token));
    LeafBehind(t, others, kids);
    SameMatch(t, others + kids, kids, token, choice);
  }

  /** What is behind the children does not change which child matches. */
  lemma MatchWithoutRest(t: Tree, kids: seq<Id>, rest: seq<Id>, token: string, choice: int)
    requires InTable(t, kids) && InTable(t, rest) && InTable(t, kids + rest)
    requires forall c | c in rest :: c !in kids
    requires var m := FindMatch(t, kids + rest, token, choice); m.Found? && m.param in kids
    ensures FindMatch(t, kids, token, choice) == FindMatch(t, kids + rest, token, choice)
  {
    FirstExactAppend(t, kids, rest, token);
    var k := FirstExact(t, kids, token);
    if k < |kids| {
      assert (kids + rest)[..k] == kids[..k];
    } else {
      MatchWithoutExact(t, kids, rest, token, choice);
    }
  }

  /** What is matched when there is no exact name. */
  function Choose(candidates: seq<Id>, leaf: Match, choice: int): Match {
    if |candidates| >= POSSIBILITY_ARRAY_SIZE then TooMany
    else if candidates == [] then leaf
    else if |candidates| == 1 then Found(candidates[0])
    else if 0 <= choice < |candidates| then Found(candidates[choice])
    else NotFound
  }

  lemma NoExactName(t: Tree, options: seq<Id>, token: string, choice: int)
    requires InTable(t, options) && FirstExact(t, options, token) == |options|
    ensures FindMatch(t, options, token, choice)
         == Choose(Abbreviated(t, options, token), LastLeaf(t, options), choice)
  {
    assert options[..|options|] == options;
  }

  lemma ChooseOwn(own: seq<Id>, others: seq<Id>, leaf: Match, ownLeaf: Match, choice: int)
    requires var m := Choose(own + others, leaf, choice); m.Found? && m.param !in others
    requires own + others == [] ==> leaf == ownLeaf
    ensures Choose(own, ownLeaf, choice) == Choose(own + others, leaf, choice)
  {
    if own == [] {
      assert own + others == others;
    }
  }

  lemma MatchWithoutExact(t: Tree, kids: seq<Id>, rest: seq<Id>, token: string, choice: int)
    requires InTable(t, kids) && InTable(t, rest) && InTable(t, kids + rest)
    requires forall c | c in rest :: c !in kids
    requires FirstExact(t, kids, token) == |kids| && FirstExact(t, kids + rest, token) == |kids + rest|
    requires var m := FindMatch(t, kids + rest, token, choice); m.Found? && m.param in kids
    ensures FindMatch(t, kids, token, choice) == FindMatch(t, kids + rest, token, choice)
  {
    NoExactName(t, kids, token, choice);
    NoExactName(t, kids + rest, token, choice);
    LastLeafAppend(t, kids, rest);
    LastLeafMeans(t, rest);
    AbbreviatedAppend(t, kids, rest, token);
    AbbreviatedAreOptions(t, rest, token);
    ChooseOwn(Abbreviated(t, kids, token), Abbreviated(t, rest, token),
              LastLeaf(t, kids + rest), LastLeaf(t, kids), choice);
  }

  /** `n` supports negation through `z`, which offers the children `n` had; whatever was registered under `n`
      later comes behind. */
  ghost predicate Negates(t: Tree, n: Id, z: Id) {
    && CONFIG <= n < |t| && CONFIG <= z < |t| && !t[n].kind.NoCmd? && t[z].kind.NoCmd?
    && |t[z].options| >= CHILDREN_START_INDEX
    && var kids := t[z].options[CHILDREN_START_INDEX..];
       && t[z].options == Capabilities(NoCmd) + kids
       && |t[n].options| > |t[z].options|
       && t[n].options[..|t[z].options|] == Capabilities(Cmd) + kids
       && t[n].options[|t[z].options|] == z
       && (forall c | c in Behind(t, n, z) :: c !in kids)
  }

  /** The options of `n` from its `no` on. */
  function Behind(t: Tree, n: Id, z: Id): seq<Id>
    requires n < |t| && z < |t| && |t[n].options| > |t[z].options|
  {
    t[n].options[|t[z].options|..]
  }

  /** It does after support_cmd_negation. */
  lemma NegatedNegates(t: Tree, n: Id)
    requires WellFormed(t) && CONFIG <= n < |t| && !t[n].kind.NoCmd?
    requires CHILDREN_START_INDEX < |t[n].options| < MAX_OPTION_SIZE
    ensures Negates(Negated(t, n), n, |t|)
  {
    assert OptionsOk(t, n);
    var u := Negated(t, n);
    var kids := t[n].options[CHILDREN_START_INDEX..];
    assert t[n].options == Capabilities(Cmd) + kids;
    assert u[|t|].options[CHILDREN_START_INDEX..] == kids;
    assert u[n].options == t[n].options + [|t|];
    assert u[n].options[..|t[n].options|] == t[n].options && Behind(u, n, |t|) == [|t|];
  }

  /** And still does after anything else is registered, under `n` or elsewhere. */
  lemma RegisteringKeepsNegation(t: Tree, n: Id, z: Id, parent: Id, child: Param)
    requires WellFormed(t) && Negates(t, n, z) && parent < |t| && parent != z && !child.kind.NoCmd?
    ensures Negates(Registered(t, parent, child), n, z)
  {
    var u := Registered(t, parent, child);
    assert OptionsOk(t, n) && OptionsOk(t, z);
    OptionsAreInTable(t, z);
    assert t[n].options != [];
    if parent == n {
      assert u[n].options == t[n].options + [|t|];
      assert u[n].options[..|t[z].options|] == t[n].options[..|t[z].options|];
      assert Behind(u, n, z) == Behind(t, n, z) + [|t|];
    }
  }

  lemma CapabilityCharacters(t: Tree, n: Id, token: Token)
    requires WellFormed(t) && CONFIG <= n < |t| && !t[n].kind.NoCmd? && t[n].options != []
    requires token.text in {"/", "?", "."} && MatchAt(t, n, token).Found?
    ensures MatchAt(t, n, token).param < CONFIG
  {
    OptionsAreInTable(t, n);
    assert OptionsOk(t, n);
    FirstExactMeans(t, t[n].options, token.text);
    var k := if token.text == "/" then 0 else if token.text == "?" then 1 else 2;
    assert t[t[n].options[k]].name == token.text && !t[t[n].options[k]].kind.Leaf?;
    assert FirstExact(t, t[n].options, token.text) <= k;
  }

  /** A token that resolves to one of the copied children resolves to the same child behind `no`. */
  lemma NoOffersTheSameChild(t: Tree, n: Id, z: Id, token: Token)
    requires WellFormed(t) && Negates(t, n, z) && token.text != ""
    requires var m := MatchAt(t, n, token); m.Found? && m.param in t[z].options[CHILDREN_START_INDEX..]
    ensures MatchAt(t, z, token) == MatchAt(t, n, token)
  {
    OptionsAreInTable(t, n);
    OptionsAreInTable(t, z);
    assert OptionsOk(t, n) && OptionsOk(t, z);
    var kids := t[z].options[CHILDREN_START_INDEX..];
    if token.text in {"/", "?", "."} {
      CapabilityCharacters(t, n, token);
    }
    var rest := Behind(t, n, z);
    assert t[n].options == Capabilities(Cmd) + kids + rest == Capabilities(Cmd) + (kids + rest);
    assert InTable(t, kids) && InTable(t, rest) && InTable(t, kids + rest);
    MatchByChildren(t, Cmd, kids + rest, token.text, token.choice);
    MatchByChildren(t, NoCmd, kids, token.text, token.choice);
    MatchWithoutRest(t, kids, rest, token.text, token.choice);
  }

  /** `no` before a negatable command changes nothing but the operation mode: the walk reaches the same param
      through the same leaves, and is marked as negated. */
  lemma InsertingNo(env: Env, n: Id, z: Id, parent: Id, no: Token, tokens: seq<Token>)
    requires EnvOk(env) && Negates(env.tree, n, z) && tokens != [] && tokens[0].text != ""
    requires MatchAt(env.tree, n, no) == Found(z)
    requires var m := MatchAt(env.tree, n, tokens[0]);
             m.Found? && m.param in env.tree[z].options[CHILDREN_START_INDEX..]
    ensures var plain, negated := Walk(env, n, parent, tokens), Walk(env, n, parent, [no] + tokens);
            && negated.status == plain.status && negated.param == plain.param
            && negated.leaves == plain.leaves && negated.negated
            && EndOf(negated) == EndOf(plain)
  {
    var t := env.tree;
    var line := [no] + tokens;
    assert line[1..] == tokens && line[0] == no;
    NoOffersTheSameChild(t, n, z, tokens[0]);
    var c := MatchAt(t, n, tokens[0]).param;
    assert OptionsOk(t, z);
    var k :| CHILDREN_START_INDEX <= k < |t[z].options| && t[z].options[k] == c;
    FromEither(env, n, z, parent, tokens, c);
    WalkStep(env, n, parent, line);
  }

  /** Two params at which the first token means the same child walk alike. */
  lemma FromEither(env: Env, n: Id, z: Id, parent: Id, tokens: seq<Token>, c: Id)
    requires EnvOk(env) && n < |env.tree| && z < |env.tree| && tokens != [] && c >= CONFIG
    requires MatchAt(env.tree, n, tokens[0]) == MatchAt(env.tree, z, tokens[0]) == Found(c)
    ensures var a, b := Walk(env, n, parent, tokens), Walk(env, z, n, tokens);
            a.(parent := b.parent) == b && EndOf(a) == EndOf(b)
  {
    WalkStep(env, n, parent, tokens);
    WalkStep(env, z, n, tokens);
    if tokens[1..] != [] {
      WalkStep(env, c, z, tokens[1..]);
      WalkStep(env, c, n, tokens[1..]);
    }
  }

  // ---- adding it twice ----

  /** Two tables in which the options look alike. */
  ghost predicate LookAlike(t: Tree, u: Tree, options: seq<Id>) {
    && InTable(t, options) && InTable(u, options)
    && forall i | 0 <= i < |options| ::
         u[options[i]].kind == t[options[i]].kind && u[options[i]].name == t[options[i]].name
  }

  lemma {:induction false} SameCandidates(t: Tree, u: Tree, options: seq<Id>, token: string)
    requires LookAlike(t, u, options)
    ensures FirstExact(u, options, token) == FirstExact(t, options, token)
    ensures Abbreviated(u, options, token) == Abbreviated(t, options, token)
    decreases |options|
  {
    if options != [] {
      SameCandidates(t, u, options[1..], token);
    }
  }

  /** `options[k]` is the first command of the token's very name. */
  ghost predicate IsFirstNamed(t: Tree, options: seq<Id>, token: string, k: nat)
    requires InTable(t, options)
  {
    k < |options| && Names(t, options[k], token) && forall j | 0 <= j < k :: !Names(t, options[j], token)
  }

  lemma FirstNamed(t: Tree, options: seq<Id>, token: string, k: nat)
    requires InTable(t, options)
    ensures IsFirstNamed(t, options, token, k) <==> k == FirstExact(t, options, token) < |options|
  {
    FirstExactMeans(t, options, token);
    var e := FirstExact(t, options, token);
    if IsFirstNamed(t, options, token, k) {
      assert e <= k;
    }
  }

  lemma MatchBehind(t: Tree, u: Tree, options: seq<Id>, z: Id, token: string, choice: int)
    requires LookAlike(t, u, options) && z < |u| && Names(u, z, token)
    requires !FindMatch(t, options, token, choice).TooMany?
    ensures InTable(u, options + [z])
    ensures var k := FirstExact(t, options, token);
            FindMatch(u, options + [z], token, choice) == Found(if k < |options| then options[k] else z)
  {
    var k := FirstExact(t, options, token);
    FirstExactAppend(u, options, [z], token);
    SameCandidates(t, u, options, token);
    assert (options + [z])[..k] == options[..k];
    SameCandidates(t, u, options[..k], token);
  }

  lemma NegatedLooksAlike(t: Tree, n: Id)
    requires WellFormed(t) && n < |t| && CHILDREN_START_INDEX < |t[n].options|
    ensures LookAlike(t, Negated(t, n), t[n].options)
    ensures Negated(t, n)[n].options == t[n].options + [|t|] && Names(Negated(t, n), |t|, "no")
  {
    OptionsAreInTable(t, n);
  }

  /** With a `no` behind the options, "no" means that one, unless a command of the same name stands before it. */
  lemma NoIsFound(t: Tree, n: Id, answer: int)
    requires WellFormed(t) && CONFIG <= n < |t| && !t[n].kind.NoCmd? && Branch(t, n) == CONFIG
    requires CHILDREN_START_INDEX < |t[n].options| < MAX_OPTION_SIZE
    requires !MatchAt(t, n, Token("no", answer)).TooMany?
    ensures WellFormed(Negated(t, n)) && OptionsInTable(t, n)
    ensures var k := FirstExact(t, t[n].options, "no");
            MatchAt(Negated(t, n), n, Token("no", answer))
            == Found(if k < |t[n].options| then t[n].options[k] else |t|)
  {
    NegatingKeepsWellFormed(t, n);
    OptionsAreInTable(t, n);
    NegatedLooksAlike(t, n);
    MatchBehind(t, Negated(t, n), t[n].options, |t|, "no", answer);
  }

  /** A param has its `no` already exactly when the first of its commands called "no" is one, or it just got one and
      none is called so. A second call of support_cmd_negation then changes nothing; behind an ordinary command
      called "no" it would add another. */
  lemma NegatingTwice(t: Tree, n: Id, answer: int)
    requires WellFormed(t) && CONFIG <= n < |t| && !t[n].kind.NoCmd? && Branch(t, n) == CONFIG
    requires CHILDREN_START_INDEX < |t[n].options| < MAX_OPTION_SIZE
    requires !MatchAt(t, n, Token("no", answer)).TooMany?
    ensures WellFormed(Negated(t, n)) && OptionsInTable(t, n)
    ensures AlreadyNegated(Negated(t, n), n, answer)
       <==> forall k: nat | IsFirstNamed(t, t[n].options, "no", k) :: t[t[n].options[k]].kind.NoCmd?
  {
    NoIsFound(t, n, answer);
    var k := FirstExact(t, t[n].options, "no");
    FirstNamed(t, t[n].options, "no", k);
    forall j: nat | IsFirstNamed(t, t[n].options, "no", j)
      ensures j == k
    {
      FirstNamed(t, t[n].options, "no", j);
    }
    assert Negated(t, n)[|t|].kind.NoCmd?;
  }

  /** A param none of whose options is a `no` has none yet. */
  lemma NotYetNegated(t: Tree, n: Id, answer: int)
    requires WellFormed(t) && n < |t| && OptionsInTable(t, n)
    requires forall c | c in t[n].options :: !t[c].kind.NoCmd?
    ensures !AlreadyNegated(t, n, answer)
  {
    if MatchAt(t, n, Token("no", answer)).Found? {
      MatchIsInTable(t, n, Token("no", answer));
    }
  }
}
