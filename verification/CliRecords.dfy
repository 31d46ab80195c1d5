/** The records a handler is shown, word by word (CommandParser/parser.c:139-182, 234-275, cmdtlv.h:37-66). */
module CliRecords {
  import opened CommandTree
  import opened CommandWalk
  import opened WalkMeaning
  import opened CliModel
  import opened CliShadow
  import opened CliHandlers
  import opened CliWords

  /** The first tokens lead along `trail`, each leaf's word being accepted by both validations, and `at` are the
      positions of the leaves among them, in order. */
  ghost predicate Trail(env: Env, cur: Id, tokens: seq<Token>, trail: seq<Id>, at: seq<nat>) {
    Follow(env, cur, tokens, trail) && Increasing(at) && PicksLeaves(env.tree, trail, at)
  }

  /** Whose handler a line is for that leads along `trail`: that of its last param, or of the one before a "/". */
  function Addressee(cur: Id, trail: seq<Id>): Id
    requires trail != []
  {
    if trail[|trail| - 1] == MODE then PlaceOf(cur, trail, |trail| - 1) else trail[|trail| - 1]
  }

  /** Not "?", "." or `config`, nor "/" at the root or at `config`. */
  ghost predicate IsForHandler(t: Tree, cur: Id, trail: seq<Id>)
    requires trail != []
  {
    var n := Addressee(cur, trail);
    && n < |t| && t[n].hasCallback && n !in {ROOT, MODE, SUBOPTIONS, EXPANSION, CONFIG}
    && trail[|trail| - 1] < |t| && t[trail[|trail| - 1]].hasCallback
  }

  /** Behind what was in the buffer: for each leaf its type, its name and the word typed for it, and then the code of
      the command. */
  ghost predicate Records(t: Tree, n: Id, before: seq<Tlv>, tokens: seq<Token>, trail: seq<Id>, at: seq<nat>,
                          tlvs: seq<Tlv>)
    requires n < |t|
  {
    && |tlvs| == |before| + |at| + 1 && tlvs[..|before|] == before
    && (forall i | 0 <= i < |at| ::
          && at[i] < |trail| && at[i] < |tokens| && trail[at[i]] < |t|
          && tlvs[|before| + i] == Tlv(t[trail[at[i]]].leafType, t[trail[at[i]]].name, tokens[at[i]].text))
    && IsCodeOf(t, n, tlvs[|before| + |at|])
  }

  ghost predicate IsCodeOf(t: Tree, n: Id, tlv: Tlv)
    requires n < |t|
  {
    tlv.leafType == INT && tlv.leafId == "CMDCODE" && Atoi(tlv.value) == t[n].cmdCode
  }

  /** The mode goes by the branch, and by whether a `no` was passed. */
  ghost predicate ModeIs(t: Tree, n: Id, trail: seq<Id>, mode: OpMode)
    requires n < |t|
  {
    && (mode == OPERATIONAL <==> !IsAncestor(t, CONFIG, n))
    && (mode == CONFIG_DISABLE <==> exists i | 0 <= i < |trail| :: trail[i] < |t| && t[trail[i]].kind.NoCmd?)
  }

  lemma LeavesAreRecords(t: Tree, n: Id, before: seq<Tlv>, tokens: seq<Token>, trail: seq<Id>, at: seq<nat>,
                         leaves: seq<(Id, string)>)
    requires n < |t| && |trail| <= |tokens| && LeavesOk(t, leaves) && LeavesOf(t, tokens, trail, at, leaves)
    ensures Records(t, n, before, tokens, trail, at, before + LeafTlvs(t, leaves) + [CodeTlv(t[n].cmdCode)])
  {
    RecordsAre(t, leaves);
    AtoiOfDecimal(t[n].cmdCode);
    var tlvs := before + LeafTlvs(t, leaves) + [CodeTlv(t[n].cmdCode)];
    assert tlvs[|before| + |at|] == CodeTlv(t[n].cmdCode);
    forall i | 0 <= i < |at|
      ensures tlvs[|before| + i] == Tlv(t[trail[at[i]]].leafType, t[trail[at[i]]].name, tokens[at[i]].text)
    {
      assert tlvs[|before| + i] == LeafTlvs(t, leaves)[i];
    }
  }

  /** The call a command makes, record by record. */
  lemma OwnRecords(env: Env, st: State, tokens: seq<Token>, trail: seq<Id>, at: seq<nat>)
    requires EnvOk(env) && Resting(env.tree, st.cursor) && Walkable(st.cursor, tokens)
    requires var w := WalkFrom(env, st.cursor, tokens);
             && Told(env, st.cursor, st.cursor, tokens, w, trail, at)
             && w.status == COMPLETE && EndOf(w) >= CONFIG
    ensures var w := WalkFrom(env, st.cursor, tokens);
            var call := OwnCall(env.tree, st, w);
            && call.param == EndOf(w)
            && Records(env.tree, EndOf(w), st.tlvs, tokens, trail, at, call.tlvs)
            && ModeIs(env.tree, EndOf(w), trail, call.mode)
  {
    var t, w := env.tree, WalkFrom(env, st.cursor, tokens);
    EndBranch(env, st.cursor, tokens);
    LeavesAreRecords(t, EndOf(w), st.tlvs, tokens, trail, at, w.leaves);
    InConfig(t, EndOf(w));
  }

  lemma ToldTrail(env: Env, cur: Id, tokens: seq<Token>, w: Walked, trail: seq<Id>, at: seq<nat>)
    requires Told(env, cur, cur, tokens, w, trail, at)
    ensures Trail(env, cur, tokens, trail, at)
    ensures |trail| < |tokens| ==> StoppedFor(env, PlaceOf(cur, trail, |trail|), tokens[|trail|], w.status)
  {
    if |trail| < |tokens| {
      StoppedMeans(env, PlaceOf(cur, trail, |trail|), tokens[|trail|], w.status);
    }
  }

  /** What comes of a command: the status by its first token that goes nowhere or by its last param, and the call
      of that param's handler, if there is one, with the words of the line. */
  ghost predicate Outcome(env: Env, cur: Id, before: seq<Tlv>, calls: seq<Call>, tokens: seq<Token>, trail: seq<Id>,
                          at: seq<nat>, status: Status, after: seq<Call>)
    requires |trail| <= |tokens| && tokens != []
  {
    var t := env.tree;
    if |trail| < |tokens| then
      StoppedFor(env, PlaceOf(cur, trail, |trail|), tokens[|trail|], status) && after == calls
    else if IsForHandler(t, cur, trail) then
      && status == COMPLETE && |after| > |calls| && after[..|calls|] == calls
      && var call, n := after[|calls|], Addressee(cur, trail);
         call.param == n && Records(t, n, before, tokens, trail, at, call.tlvs) && ModeIs(t, n, trail, call.mode)
    else
      var last := trail[|trail| - 1];
      && last < |t| && (status == if t[last].hasCallback then COMPLETE else INCOMPLETE_COMMAND)
      && after == calls
  }

  lemma BuildOutcome(env: Env, st: State, tokens: seq<Token>, line: Line) returns (trail: seq<Id>, at: seq<nat>)
    requires Ready(env, st, line) && Walkable(st.cursor, tokens)
    ensures Trail(env, st.cursor, tokens, trail, at)
    ensures var (after, status) := Build(env, st, tokens, line);
            Outcome(env, st.cursor, st.tlvs, st.calls, tokens, trail, at, status, after.calls)
  {
    var w := WalkFrom(env, st.cursor, tokens);
    trail, at := WalkIsTold(env, st.cursor, st.cursor, tokens);
    ToldTrail(env, st.cursor, tokens, w, trail, at);
    BuildShows(env, st, tokens, line);
    if |trail| == |tokens| {
      Reaching(env, st.cursor, tokens, trail);
      if IsForHandler(env.tree, st.cursor, trail) {
        OwnRecords(env, st, tokens, trail, at);
      }
    }
  }

  /** The two ways to say that a line is for a handler. */
  lemma Reaching(env: Env, cur: Id, tokens: seq<Token>, trail: seq<Id>)
    requires EnvOk(env) && OnTree(env.tree, cur) && tokens != [] && |trail| == |tokens|
    requires var w := WalkFrom(env, cur, tokens);
             && w.status == COMPLETE && w.param == PlaceOf(cur, trail, |trail|)
             && w.parent == PlaceOf(cur, trail, |trail| - 1)
    ensures var w := WalkFrom(env, cur, tokens);
            && (ReachesHandler(env.tree, w) <==> IsForHandler(env.tree, cur, trail))
            && (ReachesHandler(env.tree, w) ==> EndOf(w) == Addressee(cur, trail) >= CONFIG)
  {
  }

  lemma WalkedLine(env: Env, st: State, line: Line)
    requires Ready(env, st, line) && line.tokens != [] && NoSpecialWord(st.cursor, line.tokens)
    ensures Walkable(st.cursor, line.tokens)
    ensures var (after, status) := Build(env, st, line.tokens, line);
            Parse(env, st, line).0.calls == after.calls && Parse(env, st, line).1 == status
  {
    WordsDecide(st.cursor, line.tokens);
    OrdinaryLine(env, st, line);
  }

  lemma DoneLine(env: Env, st: State, line: Line)
    requires Ready(env, st, line) && |line.tokens| > 1 && "do" <= line.tokens[0].text
    requires st.cursor >= CONFIG && IsAncestor(env.tree, CONFIG, st.cursor)
    ensures Ready(env, AtHook(st), line)
    ensures var (after, status) := Build(env, AtHook(st), line.tokens[1..], line);
            Parse(env, st, line).0.calls == after.calls && Parse(env, st, line).1 == status
  {
    WordsDecide(st.cursor, line.tokens);
    InConfig(env.tree, st.cursor);
    DoLine(env, st, line);
    assert PathTlvs(env.tree, st.values, DO_HOOK) == [];
    assert RunDo(env, st, line.tokens[1..], line).0.calls == Build(env, AtHook(st), line.tokens[1..], line).0.calls;
  }

  /** Every line but those with a word of their own, typed or fed back: the handler it is for is shown, behind what
      was in the buffer, one record for each leaf of the line with the word typed for it. */
  lemma HandlerSees(env: Env, st: State, line: Line) returns (trail: seq<Id>, at: seq<nat>)
    requires Ready(env, st, line) && line.tokens != [] && NoSpecialWord(st.cursor, line.tokens)
    ensures Trail(env, st.cursor, line.tokens, trail, at)
    ensures var (after, status) := Parse(env, st, line);
            Outcome(env, st.cursor, st.tlvs, st.calls, line.tokens, trail, at, status, after.calls)
  {
    WalkedLine(env, st, line);
    trail, at := BuildOutcome(env, st, line.tokens, line);
  }

  /** And behind nothing, through `do` in the config branch. */
  lemma HandlerSeesThroughDo(env: Env, st: State, line: Line) returns (trail: seq<Id>, at: seq<nat>)
    requires Ready(env, st, line) && |line.tokens| > 1 && "do" <= line.tokens[0].text
    requires st.cursor >= CONFIG && IsAncestor(env.tree, CONFIG, st.cursor)
    ensures Trail(env, DO_HOOK, line.tokens[1..], trail, at)
    ensures var (after, status) := Parse(env, st, line);
            Outcome(env, DO_HOOK, [], st.calls, line.tokens[1..], trail, at, status, after.calls)
  {
    DoneLine(env, st, line);
    trail, at := BuildOutcome(env, AtHook(st), line.tokens[1..], line);
  }
}
