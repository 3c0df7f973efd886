/**
 * The question-answering agent's control flow: which node runs after
 * which, the retry counter, and the cleaning of the generated SQL text.
 * The language model, the database and the answers the model writes are
 * not modelled: what the model returns and what a query returns are
 * parameters (an `Env`), so every property below holds whatever they do.
 */
module Agent {
  import opened Wrappers
  import opened Text

  /** The graph's nodes, and END. */
  datatype Node =
    | ClassifyIntent
    | HandleConversation
    | GenerateQuery
    | ExecuteQuery
    | SummarizeResult
    | HandleError
    | End

  /**
   * The keys of the state the routing reads or writes. The intent is None
   * until the classifier writes it. The query, the result and the retry
   * counter hold their defaults ("", "" and 0) until their nodes write
   * them: the graph reads the counter through `get` with default 0, and
   * reads the query and the result only after their nodes have run.
   */
  datatype AgentState = AgentState(
    question: string,
    intent: Option<string>,
    query: string,
    result: string,
    retries: int)

  /** A state as the agent is first invoked with: only the question. */
  function Fresh(question: string): AgentState {
    AgentState(question, None, "", "", 0)
  }

  const ErrorMarker := "Error:"
  const Fence := "```"
  const SqlFence := "```sql"

  /** How many failed generations the agent tolerates before it gives up: `retries > 7`. */
  const MaxRetries := 7

  /** The most queries one question can cost. */
  const MaxGenerations: nat := MaxRetries + 1

  // ---------------------------------------------------------------------
  // Conditional edges

  /** `decide_intent_path` */
  function DecideIntentPath(st: AgentState): (r: Node)
    requires st.intent.Some?
    ensures r == GenerateQuery <==> st.intent.value == "DatabaseQuery"
    ensures r == HandleConversation <==> st.intent.value != "DatabaseQuery"
  {
    if st.intent.value == "DatabaseQuery" then GenerateQuery else HandleConversation
  }

  /** `decide_result_status` */
  function DecideResultStatus(st: AgentState): (r: Node)
    ensures r == SummarizeResult <==> !HasSubstring(st.result, ErrorMarker)
    ensures r == HandleError <==> HasSubstring(st.result, ErrorMarker) && st.retries > MaxRetries
    ensures r == GenerateQuery <==> HasSubstring(st.result, ErrorMarker) && st.retries <= MaxRetries
  {
    if HasSubstring(st.result, ErrorMarker) then
      if st.retries > MaxRetries then HandleError else GenerateQuery
    else SummarizeResult
  }

  // ---------------------------------------------------------------------
  // Nodes

  /** The intent is the name of the first tool the model called, "Conversation" when it called none. */
  function ClassifyIntentNode(st: AgentState, toolCall: Option<string>): (r: AgentState)
    ensures r.intent.Some?
    ensures r.intent.value == "DatabaseQuery" <==> toolCall == Some("DatabaseQuery")
    ensures r == st.(intent := r.intent)
  {
    st.(intent := Some(if toolCall.None? then "Conversation" else toolCall.value))
  }

  /**
   * `raw.strip().replace("```sql", "").replace("```", "").strip()`: the
   * model's answer without Markdown code fences or surrounding whitespace.
   */
  function StripFences(raw: string): (q: string)
    ensures !HasSubstring(q, Fence)
    ensures Trimmed(q)
  {
    var noFences := Replace(Replace(Strip(raw), SqlFence, ""), Fence, "");
    DeleteFencesLeavesNone(Replace(Strip(raw), SqlFence, ""));
    StripKeepsAbsence(noFences, Fence);
    Strip(noFences)
  }

  /**
   * `generate_query_node` past the model call: the cleaned query is stored
   * and the retry counter goes up by one.
   */
  function GenerateQueryNode(st: AgentState, raw: string): (r: AgentState)
    ensures r.retries == st.retries + 1
    ensures r.query == StripFences(raw)
    ensures r == st.(query := r.query, retries := r.retries)
  {
    st.(query := StripFences(raw), retries := st.retries + 1)
  }

  /** `execute_query_node`: the result of running the query is stored. */
  function ExecuteQueryNode(st: AgentState, output: string): (r: AgentState)
    ensures r.result == output
    ensures r == st.(result := r.result)
  {
    st.(result := output)
  }

  // ---------------------------------------------------------------------
  // Running the graph

  /**
   * What the outside world answers: the tool the classifier calls (None
   * for no call), the text the model writes for a state, and what the
   * database returns for a query. The database answer depends on the query
   * text alone; the budget and termination lemmas hold whatever `exec`
   * returns, so they do not rely on that.
   */
  datatype Env = Env(toolCall: Option<string>, generate: AgentState -> string, exec: string -> string)

  /** Where the graph is: the state and the node about to run. */
  datatype Config = Config(state: AgentState, node: Node)

  /** One node runs, then the edge out of it is taken. */
  function Step(c: Config, env: Env): (r: Config)
    ensures c.node in {End, HandleConversation, SummarizeResult, HandleError} ==> r == Config(c.state, End)
    ensures c.node == GenerateQuery ==> r.node == ExecuteQuery
    ensures c.node == ClassifyIntent ==> r.node in {GenerateQuery, HandleConversation}
    ensures c.node == ExecuteQuery ==> r.node in {GenerateQuery, SummarizeResult, HandleError}
  {
    var st := c.state;
    match c.node
    case ClassifyIntent =>
      var st' := ClassifyIntentNode(st, env.toolCall);
      Config(st', DecideIntentPath(st'))
    case GenerateQuery =>
      Config(GenerateQueryNode(st, env.generate(st)), ExecuteQuery)
    case ExecuteQuery =>
      var st' := ExecuteQueryNode(st, env.exec(st.query));
      Config(st', DecideResultStatus(st'))
    case _ => Config(st, End)
  }

  /** The outcome of a run: where it stopped, and the nodes it ran in order. */
  datatype Outcome = Outcome(last: Config, visited: seq<Node>)

  /** The run of a graph whose edges are `next`: at most `fuel` steps, stopping at END. */
  function RunWith(next: Config -> Config, c: Config, fuel: nat): (o: Outcome)
    ensures |o.visited| <= fuel
    ensures End !in o.visited
    decreases fuel
  {
    if c.node == End || fuel == 0 then Outcome(c, [])
    else
      var o := RunWith(next, next(c), fuel - 1);
      Outcome(o.last, [c.node] + o.visited)
  }

  /** This graph's edges. */
  function Edges(env: Env): Config -> Config {
    c => Step(c, env)
  }

  /** The agent's run from a configuration, as `agent.invoke` performs it. */
  function Run(c: Config, env: Env, fuel: nat): (o: Outcome)
    ensures |o.visited| <= fuel
    ensures End !in o.visited
  {
    RunWith(Edges(env), c, fuel)
  }

  /** A run that has fuel left and is not at END takes one step and carries on. */
  lemma RunUnfold(next: Config -> Config, c: Config, fuel: nat)
    requires c.node != End && fuel > 0
    ensures var rest := RunWith(next, next(c), fuel - 1);
      RunWith(next, c, fuel) == Outcome(rest.last, [c.node] + rest.visited)
  {
  }

  /** Two steps at once. */
  lemma RunUnfoldTwice(next: Config -> Config, c: Config, fuel: nat)
    requires c.node != End && next(c).node != End && fuel > 1
    ensures var rest := RunWith(next, next(next(c)), fuel - 2);
      RunWith(next, c, fuel) == Outcome(rest.last, [c.node, next(c).node] + rest.visited)
  {
    var rest := RunWith(next, next(next(c)), fuel - 2);
    RunUnfold(next, c, fuel);
    RunUnfold(next, next(c), fuel - 1);
    assert [c.node] + ([next(c).node] + rest.visited) == [c.node, next(c).node] + rest.visited;
  }

  /** How many times node `n` occurs in `ns`. */
  function Occurrences(ns: seq<Node>, n: Node): nat {
    if ns == [] then 0 else (if ns[0] == n then 1 else 0) + Occurrences(ns[1..], n)
  }

  /** Occurrences in a concatenation add up. */
  lemma {:induction false} OccurrencesAppend(a: seq<Node>, b: seq<Node>, n: Node)
    ensures Occurrences(a + b, n) == Occurrences(a, n) + Occurrences(b, n)
    decreases |a|
  {
    if a != [] {
      assert (a + b)[1..] == a[1..] + b;
      OccurrencesAppend(a[1..], b, n);
    } else {
      assert a + b == b;
    }
  }

  /** How many times the query is generated in a run. */
  function Generations(o: Outcome): nat {
    Occurrences(o.visited, GenerateQuery)
  }

  /** Running one more node first adds one generation exactly when that node generates. */
  lemma GenerationsCons(n: Node, o: Outcome)
    ensures Generations(Outcome(o.last, [n] + o.visited))
         == Generations(o) + (if n == GenerateQuery then 1 else 0)
  {
    assert ([n] + o.visited)[1..] == o.visited;
  }

  /** The question as the agent is first invoked with it. */
  function Start(question: string): Config {
    Config(Fresh(question), ClassifyIntent)
  }

  // ---------------------------------------------------------------------
  // The retry loop is bounded

  /** How many more generations can happen from a configuration. */
  function Budget(c: Config): nat {
    var r := c.state.retries;
    match c.node
    case ClassifyIntent | GenerateQuery => if r <= MaxRetries then MaxRetries + 1 - r else 1
    case ExecuteQuery => if r <= MaxRetries then MaxRetries + 1 - r else 0
    case _ => 0
  }

  /** Edges that spend one unit of `budget` on a generation and none otherwise. */
  ghost predicate SpendsBudget(next: Config -> Config, budget: Config -> nat) {
    forall c: Config | c.node != End :: budget(next(c)) + (if c.node == GenerateQuery then 1 else 0) <= budget(c)
  }

  /** Edges that spend budget do so on every step short of END. */
  lemma SpendStep(next: Config -> Config, budget: Config -> nat, c: Config)
    requires SpendsBudget(next, budget) && c.node != End
    ensures budget(next(c)) + (if c.node == GenerateQuery then 1 else 0) <= budget(c)
  {
  }

  /** A step spends one unit of budget when it generates a query, and none otherwise. */
  lemma StepBudget(c: Config, env: Env)
    requires c.node != End
    ensures Budget(Step(c, env)) + (if c.node == GenerateQuery then 1 else 0) <= Budget(c)
  {
  }

  lemma EdgesSpendBudget(env: Env)
    ensures SpendsBudget(Edges(env), Budget)
  {
    forall c: Config | c.node != End
      ensures Budget(Edges(env)(c)) + (if c.node == GenerateQuery then 1 else 0) <= Budget(c)
    {
      StepBudget(c, env);
    }
  }

  /** Along edges that spend budget, no run generates more queries than the budget allows. */
  lemma {:induction false} GenerationsWithinBudget(next: Config -> Config, budget: Config -> nat, c: Config, fuel: nat)
    requires SpendsBudget(next, budget)
    ensures Generations(RunWith(next, c, fuel)) <= budget(c)
    decreases fuel
  {
    if c.node != End && fuel > 0 {
      var o, rest := RunWith(next, c, fuel), RunWith(next, next(c), fuel - 1);
      var spent := if c.node == GenerateQuery then 1 else 0;
      assert Generations(o) == Generations(rest) + spent by {
        GenerationsStep(next, c, fuel);
      }
      assert Generations(rest) <= budget(next(c)) by {
        GenerationsWithinBudget(next, budget, next(c), fuel - 1);
      }
      assert budget(next(c)) + spent <= budget(c) by {
        SpendStep(next, budget, c);
      }
    } else {
      assert RunWith(next, c, fuel).visited == [];
    }
  }

  /** A step short of END adds one generation exactly when it runs GenerateQuery. */
  lemma GenerationsStep(next: Config -> Config, c: Config, fuel: nat)
    requires c.node != End && fuel > 0
    ensures Generations(RunWith(next, c, fuel))
         == Generations(RunWith(next, next(c), fuel - 1)) + (if c.node == GenerateQuery then 1 else 0)
  {
    RunUnfold(next, c, fuel);
    GenerationsCons(c.node, RunWith(next, next(c), fuel - 1));
  }

  /** Whatever the model and the database answer, a fresh question leads to at most eight queries. */
  lemma AtMostEightGenerations(question: string, env: Env, fuel: nat)
    ensures Generations(Run(Start(question), env, fuel)) <= MaxGenerations
  {
    EdgesSpendBudget(env);
    GenerationsWithinBudget(Edges(env), Budget, Start(question), fuel);
  }

  // ---------------------------------------------------------------------
  // The graph always reaches END

  /** An upper bound on the steps left before END. */
  function Potential(c: Config): nat {
    var r := c.state.retries;
    match c.node
    case End => 0
    case HandleConversation | SummarizeResult | HandleError => 1
    case ExecuteQuery => if r <= MaxRetries then 2 * (MaxRetries + 1 - r) + 2 else 2
    case GenerateQuery => if r < MaxRetries then 2 * (MaxRetries - r) + 3 else 3
    case ClassifyIntent => if r < MaxRetries then 2 * (MaxRetries - r) + 4 else 4
  }

  ghost predicate LowersPotential(next: Config -> Config) {
    forall c: Config | c.node != End :: Potential(next(c)) < Potential(c)
  }

  lemma StepLowersPotential(c: Config, env: Env)
    requires c.node != End
    ensures Potential(Step(c, env)) < Potential(c)
  {
  }

  lemma EdgesLowerPotential(env: Env)
    ensures LowersPotential(Edges(env))
  {
    forall c: Config | c.node != End
      ensures Potential(Edges(env)(c)) < Potential(c)
    {
      StepLowersPotential(c, env);
    }
  }

  /** Given as many steps as the potential, a run ends at END. */
  lemma {:induction false} RunReachesEnd(next: Config -> Config, c: Config, fuel: nat)
    requires LowersPotential(next)
    requires Potential(c) <= fuel
    ensures RunWith(next, c, fuel).last.node == End
    decreases fuel
  {
    if c.node != End {
      RunReachesEnd(next, next(c), fuel - 1);
      RunUnfold(next, c, fuel);
    }
  }

  /** Whatever the model and the database answer, a fresh question is done within 18 steps. */
  lemma FreshRunEnds(question: string, env: Env)
    ensures Run(Start(question), env, 18).last.node == End
  {
    EdgesLowerPotential(env);
    RunReachesEnd(Edges(env), Start(question), 18);
  }

  // ---------------------------------------------------------------------
  // Concrete paths

  /** Every query the database is given fails. */
  ghost predicate AlwaysFails(env: Env) {
    forall q :: HasSubstring(env.exec(q), ErrorMarker)
  }

  /** `n` rounds of generating and executing a query. */
  function Attempts(n: nat): (r: seq<Node>)
  {
    if n == 0 then [] else [GenerateQuery, ExecuteQuery] + Attempts(n - 1)
  }

  /**
   * Edges along which every round fails: generation is followed by
   * execution, which counts one more retry and loops back until the
   * counter passes the limit; the final nodes lead to END.
   */
  ghost predicate FailingRounds(next: Config -> Config) {
    && (forall c: Config | c.node == GenerateQuery :: next(c).node == ExecuteQuery && next(c).state.retries == c.state.retries + 1)
    && (forall c: Config | c.node == ExecuteQuery ::
          next(c).state.retries == c.state.retries
          && next(c).node == (if c.state.retries > MaxRetries then HandleError else GenerateQuery))
    && (forall c: Config | c.node == HandleError :: next(c) == Config(c.state, End))
  }

  lemma EdgesFail(env: Env)
    requires AlwaysFails(env)
    ensures FailingRounds(Edges(env))
  {
    forall c: Config | c.node == ExecuteQuery
      ensures Edges(env)(c).state.retries == c.state.retries
      ensures Edges(env)(c).node == (if c.state.retries > MaxRetries then HandleError else GenerateQuery)
    {
      assert HasSubstring(env.exec(c.state.query), ErrorMarker);
    }
  }

  /** Each round generates once. */
  lemma {:induction false} AttemptsGenerate(k: nat)
    ensures Occurrences(Attempts(k), GenerateQuery) == k
  {
    if k > 0 {
      AttemptsGenerate(k - 1);
      OccurrencesAppend([GenerateQuery, ExecuteQuery], Attempts(k - 1), GenerateQuery);
      assert [GenerateQuery, ExecuteQuery][1..] == [ExecuteQuery];
    }
  }

  lemma AttemptsCons(k: nat)
    requires k > 0
    ensures Attempts(k) + [HandleError] == [GenerateQuery, ExecuteQuery] + (Attempts(k - 1) + [HandleError])
  {
  }

  /** With `k` attempts left and every query failing, the loop runs `k` rounds and then to HandleError. */
  lemma {:induction false} FailingLoop(next: Config -> Config, c: Config, fuel: nat, k: nat)
    requires FailingRounds(next)
    requires c.node == GenerateQuery
    requires 1 <= k && c.state.retries == MaxRetries + 1 - k
    requires 2 * k + 1 <= fuel
    ensures var o := RunWith(next, c, fuel);
      && o.visited == Attempts(k) + [HandleError]
      && o.last.node == End
      && o.last.state.retries == MaxRetries + 1
    decreases k
  {
    var c2 := next(next(c));
    var rest := RunWith(next, c2, fuel - 2);
    assert c2.state.retries == MaxRetries + 2 - k;
    RunUnfoldTwice(next, c, fuel);
    AttemptsCons(k);
    if k == 1 {
      assert c2.node == HandleError;
      assert rest == Outcome(Config(c2.state, End), [HandleError]) by {
        RunUnfold(next, c2, fuel - 2);
      }
      assert Attempts(k - 1) + [HandleError] == [HandleError];
    } else {
      FailingLoop(next, c2, fuel - 2, k - 1);
    }
  }

  /** From the classifier, a failing loop visits the classifier, the rounds and HandleError. */
  lemma FailingRun(next: Config -> Config, c: Config, fuel: nat, k: nat)
    requires FailingRounds(next)
    requires c.node == ClassifyIntent && next(c).node == GenerateQuery
    requires 1 <= k && next(c).state.retries == MaxRetries + 1 - k
    requires 2 * k + 2 <= fuel
    ensures var o := RunWith(next, c, fuel);
      && o.visited == [ClassifyIntent] + Attempts(k) + [HandleError]
      && o.last.node == End
      && o.last.state.retries == MaxRetries + 1
  {
    RunUnfold(next, c, fuel);
    FailingLoop(next, next(c), fuel - 1, k);
    assert [ClassifyIntent] + (Attempts(k) + [HandleError])
        == [ClassifyIntent] + Attempts(k) + [HandleError];
  }

  /** A run that makes `k` attempts between the classifier and HandleError generates `k` queries. */
  lemma FailingRunGenerations(o: Outcome, k: nat)
    requires o.visited == [ClassifyIntent] + Attempts(k) + [HandleError]
    ensures Generations(o) == k
  {
    AttemptsGenerate(k);
    OccurrencesAppend([ClassifyIntent], Attempts(k), GenerateQuery);
    OccurrencesAppend([ClassifyIntent] + Attempts(k), [HandleError], GenerateQuery);
  }

  /** The classifier sends a database question to query generation with the counter still at 0. */
  lemma ClassifiedAsQuery(question: string, env: Env)
    requires env.toolCall == Some("DatabaseQuery")
    ensures Edges(env)(Start(question)).node == GenerateQuery
    ensures Edges(env)(Start(question)).state.retries == 0
  {
  }

  /**
   * When the model calls the database tool and every query fails, the
   * agent generates exactly eight queries and then gives up.
   */
  lemma GivesUpAfterEightFailures(question: string, env: Env)
    requires env.toolCall == Some("DatabaseQuery")
    requires AlwaysFails(env)
    ensures var o := Run(Start(question), env, 18);
      && o.visited == [ClassifyIntent] + Attempts(MaxGenerations) + [HandleError]
      && Generations(o) == MaxGenerations
      && o.last.node == End
      && o.last.state.retries == MaxGenerations
  {
    EdgesFail(env);
    ClassifiedAsQuery(question, env);
    FailingRun(Edges(env), Start(question), 18, MaxGenerations);
    FailingRunGenerations(Run(Start(question), env, 18), MaxGenerations);
  }

  /**
   * When the first generated query succeeds the agent summarises after one
   * generation, whatever the database would answer to any other query.
   */
  lemma FirstSuccessSummarizes(question: string, env: Env)
    requires env.toolCall == Some("DatabaseQuery")
    requires !HasSubstring(env.exec(StripFences(env.generate(Edges(env)(Start(question)).state))), ErrorMarker)
    ensures Run(Start(question), env, 18).visited
         == [ClassifyIntent, GenerateQuery, ExecuteQuery, SummarizeResult]
  {
    var next := Edges(env);
    var c0 := Start(question);
    var c1 := next(c0);
    var c2 := next(c1);
    var c3 := next(c2);
    assert !HasSubstring(c3.state.result, ErrorMarker);
    RunUnfold(next, c0, 18);
    RunUnfold(next, c1, 17);
    RunUnfold(next, c2, 16);
    RunUnfold(next, c3, 15);
  }

  /** Any other intent goes straight to conversation, and no query is generated. */
  lemma ConversationPath(question: string, env: Env)
    requires env.toolCall != Some("DatabaseQuery")
    ensures Run(Start(question), env, 18).visited == [ClassifyIntent, HandleConversation]
  {
    var next := Edges(env);
    var c0 := Start(question);
    RunUnfold(next, c0, 18);
    RunUnfold(next, next(c0), 17);
  }

  // ---------------------------------------------------------------------
  // Fence stripping

  /** A text holding "```sql" holds "```". */
  lemma {:induction false} LongerFence(s: string)
    requires HasSubstring(s, SqlFence)
    ensures HasSubstring(s, Fence)
    decreases |s|
  {
    if !(SqlFence <= s) {
      LongerFence(s[1..]);
    } else {
      assert s[..3] == SqlFence[..3] == Fence;
    }
  }

  /** A cleaned query is left as it is by cleaning it again. */
  lemma StripFencesIdempotent(raw: string)
    ensures StripFences(StripFences(raw)) == StripFences(raw)
  {
    var q := StripFences(raw);
    StripTrimmed(q);
    if HasSubstring(q, SqlFence) {
      LongerFence(q);
    }
    ReplaceAbsent(q, SqlFence, "");
    ReplaceAbsent(q, Fence, "");
    StripTrimmed(q);
  }

  /** A text alone on its own line is what stripping the line leaves. */
  lemma StripLines(body: string)
    requires Trimmed(body)
    ensures Strip("\n" + body + "\n") == body
  {
    var mid := "\n" + body + "\n";
    var tail := body + "\n";
    assert mid[1..] == tail;
    assert Strip(mid) == Strip(tail);
    if body == [] {
      assert tail[1..] == [];
    } else {
      assert tail[0] == body[0];
      assert tail[..|tail| - 1] == body;
      StripTrimmed(body);
    }
  }

  /** A query the model wraps in a "```sql" fence on lines of their own comes out as the query itself. */
  lemma {:induction false} FencedAnswer(body: string)
    requires Trimmed(body) && '`' !in body
    ensures StripFences(SqlFence + "\n" + body + "\n" + Fence) == body
  {
    var mid := "\n" + body + "\n";
    var raw := SqlFence + mid + Fence;
    assert SqlFence + "\n" + body + "\n" + Fence == raw;
    assert raw[0] == '`' && raw[|raw| - 1] == '`';
    StripTrimmed(raw);
    DropSqlFence(mid);
    DropFence(mid);
    StripLines(body);
  }

  /** Deleting the opening fence from a fenced answer leaves the answer and the closing fence. */
  lemma DropSqlFence(mid: string)
    requires '`' !in mid
    ensures Replace(SqlFence + mid + Fence, SqlFence, "") == mid + Fence
  {
    var rest := mid + Fence;
    var raw := SqlFence + rest;
    assert SqlFence + mid + Fence == raw;
    assert raw[|SqlFence|..] == rest;
    assert Replace(raw, SqlFence, "") == Replace(rest, SqlFence, "");
    assert rest[..|mid|] == mid;
    NoSubstringBefore(rest, |mid|, SqlFence);
    ReplaceAbsent(rest, SqlFence, "");
  }

  /** Deleting the closing fence leaves the answer. */
  lemma DropFence(mid: string)
    requires '`' !in mid
    ensures Replace(mid + Fence, Fence, "") == mid
  {
    ReplaceFreePrefix(mid, Fence, Fence, "");
    assert Replace(Fence, Fence, "") == [];
    assert mid + [] == mid;
  }
}
