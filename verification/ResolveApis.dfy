/** `resolve_apis`: the worklist search that turns a list of service names, with composites
    such as "serverless", into the set of services to start. */
module ResolveApis {

  type Table = map<string, seq<string>>

  /** The names a service brings in. A composite is only an abbreviation, so its own
      dependencies, if any, are not looked at. */
  function Edges(composites: Table, dependencies: Table, s: string): seq<string> {
    if s in composites then composites[s]
    else if s in dependencies then dependencies[s]
    else []
  }

  /** A path along edges from one of the given services. */
  ghost predicate Path(composites: Table, dependencies: Table, from: set<string>, p: seq<string>) {
    && p != [] && p[0] in from
    && forall i | 0 < i < |p| :: p[i] in Edges(composites, dependencies, p[i - 1])
  }

  ghost predicate Reachable(composites: Table, dependencies: Table, from: set<string>, s: string) {
    exists p :: Path(composites, dependencies, from, p) && p[|p| - 1] == s
  }

  /** What the search is for: the reachable names that are not composites. */
  ghost predicate Resolves(composites: Table, dependencies: Table, from: set<string>, result: set<string>) {
    forall s :: s in result <==> s !in composites && Reachable(composites, dependencies, from, s)
  }

  function Elements(names: seq<string>): set<string> {
    set s | s in names
  }

  /** Composites may name composites, but not in a cycle. */
  ghost predicate Acyclic(composites: Table, rank: map<string, nat>) {
    forall c, d | c in composites && d in composites[c] && d in composites ::
      c in rank && d in rank && rank[d] < rank[c]
  }

  // ---------------------------------------------------------------- why the search ends

  function RankOf(rank: map<string, nat>, s: string): nat {
    if s in rank then rank[s] else 0
  }

  /** How many stack entries a name can turn into before a result is added. */
  ghost function Work(composites: Table, rank: map<string, nat>, s: string): nat
    requires Acyclic(composites, rank)
    decreases RankOf(rank, s), 1, 0
  {
    if s !in composites then 1 else 1 + WorkOfComposite(composites, rank, s, composites[s])
  }

  ghost function WorkOfComposite(composites: Table, rank: map<string, nat>, c: string, names: seq<string>): nat
    requires Acyclic(composites, rank)
    requires c in composites && forall d | d in names :: d in composites[c]
    decreases RankOf(rank, c), 0, |names|
  {
    if names == [] then 0
    else
      (if names[0] in composites then Work(composites, rank, names[0]) else 1)
      + WorkOfComposite(composites, rank, c, names[1..])
  }

  ghost function WorkOfStack(composites: Table, rank: map<string, nat>, stack: seq<string>): nat
    requires Acyclic(composites, rank)
  {
    if stack == [] then 0
    else WorkOfStack(composites, rank, stack[..|stack| - 1]) + Work(composites, rank, stack[|stack| - 1])
  }

  lemma {:induction false} WorkOfExpansion(composites: Table, rank: map<string, nat>, stack: seq<string>, c: string, names: seq<string>)
    requires Acyclic(composites, rank)
    requires c in composites && forall d | d in names :: d in composites[c]
    ensures WorkOfStack(composites, rank, stack + names)
         == WorkOfStack(composites, rank, stack) + WorkOfComposite(composites, rank, c, names)
    decreases |names|
  {
    if names == [] {
      assert stack + names == stack;
    } else {
      var pushed := stack + [names[0]];
      assert pushed + names[1..] == stack + names;
      assert pushed[..|pushed| - 1] == stack;
      WorkOfExpansion(composites, rank, pushed, c, names[1..]);
    }
  }

  // ---------------------------------------------------------------- the search

  /** Every name that can ever be seen. */
  function Names(table: Table): set<string> {
    set c, d | c in table && d in table[c] :: d
  }

  lemma Extend(composites: Table, dependencies: Table, from: set<string>, s: string, t: string)
    requires Reachable(composites, dependencies, from, s) && t in Edges(composites, dependencies, s)
    ensures Reachable(composites, dependencies, from, t)
  {
    var p :| Path(composites, dependencies, from, p) && p[|p| - 1] == s;
    assert Path(composites, dependencies, from, p + [t]) && (p + [t])[|p|] == t;
  }

  /** A set that holds the starting points and is closed under edges, except through what
      is still on the stack, holds everything reachable. */
  lemma {:induction false} Closed(composites: Table, dependencies: Table, from: set<string>, seen: set<string>, p: seq<string>)
    requires from <= seen
    requires forall s | s in seen :: EdgeSet(composites, dependencies, s) <= seen
    requires Path(composites, dependencies, from, p)
    ensures p[|p| - 1] in seen
    decreases |p|
  {
    if |p| > 1 {
      var q := p[..|p| - 1];
      assert Path(composites, dependencies, from, q);
      Closed(composites, dependencies, from, seen, q);
    }
  }

  function EdgeSet(composites: Table, dependencies: Table, s: string): set<string> {
    Elements(Edges(composites, dependencies, s))
  }

  /** What holds before every turn of the loop, when `pending` are the names on the stack
      and `expanded` the composites met so far. */
  ghost predicate Searching(composites: Table, dependencies: Table, from: set<string>,
                            result: set<string>, expanded: set<string>, pending: set<string>) {
    && (forall s | s in pending :: Reachable(composites, dependencies, from, s))
    && (forall s | s in result :: s !in composites && Reachable(composites, dependencies, from, s))
    && expanded <= composites.Keys
    && from <= result + expanded + pending
    && (forall s | s in result + expanded :: EdgeSet(composites, dependencies, s) <= result + expanded + pending)
  }

  lemma Start(composites: Table, dependencies: Table, from: set<string>)
    ensures Searching(composites, dependencies, from, {}, {}, from)
  {
    forall s | s in from ensures Reachable(composites, dependencies, from, s) {
      assert Path(composites, dependencies, from, [s]) && [s][0] == s;
    }
  }

  /** A name that is already in the result can be dropped. */
  lemma Skip(composites: Table, dependencies: Table, from: set<string>,
             result: set<string>, expanded: set<string>, pending: set<string>, service: string)
    requires Searching(composites, dependencies, from, result, expanded, pending + {service}) && service in result
    ensures Searching(composites, dependencies, from, result, expanded, pending)
  {
  }

  /** A composite is replaced by what it stands for. */
  lemma Expand(composites: Table, dependencies: Table, from: set<string>,
               result: set<string>, expanded: set<string>, pending: set<string>, service: string)
    requires Searching(composites, dependencies, from, result, expanded, pending + {service}) && service in composites
    ensures Searching(composites, dependencies, from, result, expanded + {service},
                      pending + EdgeSet(composites, dependencies, service))
  {
    forall t | t in Edges(composites, dependencies, service) ensures Reachable(composites, dependencies, from, t) {
      Extend(composites, dependencies, from, service, t);
    }
  }

  /** A service is added, and what it depends on is still to be done. */
  lemma Add(composites: Table, dependencies: Table, from: set<string>,
            result: set<string>, expanded: set<string>, pending: set<string>, service: string)
    requires Searching(composites, dependencies, from, result, expanded, pending + {service}) && service !in composites
    ensures Searching(composites, dependencies, from, result + {service}, expanded,
                      pending + EdgeSet(composites, dependencies, service))
  {
    forall t | t in Edges(composites, dependencies, service) ensures Reachable(composites, dependencies, from, t) {
      Extend(composites, dependencies, from, service, t);
    }
  }

  lemma Finish(composites: Table, dependencies: Table, from: set<string>, result: set<string>, expanded: set<string>)
    requires Searching(composites, dependencies, from, result, expanded, {})
    ensures Resolves(composites, dependencies, from, result)
  {
    forall s | s !in composites && Reachable(composites, dependencies, from, s) ensures s in result {
      var p :| Path(composites, dependencies, from, p) && p[|p| - 1] == s;
      Closed(composites, dependencies, from, result + expanded, p);
    }
  }

  lemma KnownNames(composites: Table, dependencies: Table, universe: set<string>, s: string)
    requires Names(composites) + Names(dependencies) <= universe
    ensures EdgeSet(composites, dependencies, s) <= universe
  {
  }

  lemma Pop(stack: seq<string>)
    requires stack != []
    ensures Elements(stack) == Elements(stack[..|stack| - 1]) + {stack[|stack| - 1]}
  {
  }

  lemma ElementsConcat(a: seq<string>, b: seq<string>)
    ensures Elements(a + b) == Elements(a) + Elements(b)
  {
  }

  method Resolve(composites: Table, dependencies: Table, services: seq<string>, ghost rank: map<string, nat>)
    returns (result: set<string>)
    requires Acyclic(composites, rank)
    ensures Resolves(composites, dependencies, Elements(services), result)
  {
    ghost var from := Elements(services);
    ghost var universe := from + Names(composites) + Names(dependencies);
    ghost var expanded: set<string> := {};
    var stack: seq<string> := [];
    result := {};
    stack := stack + services;
    assert stack == services;
    Start(composites, dependencies, from);
    while stack != []
      invariant Elements(stack) <= universe
      invariant Searching(composites, dependencies, from, result, expanded, Elements(stack))
      decreases |universe - result|, WorkOfStack(composites, rank, stack)
    {
      var service := stack[|stack| - 1];
      Pop(stack);
      stack := stack[..|stack| - 1];
      KnownNames(composites, dependencies, universe, service);
      ghost var pending := Elements(stack);
      if service in result {
        Skip(composites, dependencies, from, result, expanded, pending, service);
        continue;
      }
      if service in composites {
        Expand(composites, dependencies, from, result, expanded, pending, service);
        WorkOfExpansion(composites, rank, stack, service, composites[service]);
        expanded := expanded + {service};
        ElementsConcat(stack, composites[service]);
        stack := stack + composites[service];
        continue;
      }
      Add(composites, dependencies, from, result, expanded, pending, service);
      Shrinks(universe, result, service);
      result := result + {service};
      if service in dependencies {
        ElementsConcat(stack, dependencies[service]);
        stack := stack + dependencies[service];
      }
    }
    assert Elements([]) == {};
    Finish(composites, dependencies, from, result, expanded);
  }

  lemma Shrinks(universe: set<string>, result: set<string>, x: string)
    requires x in universe && x !in result
    ensures |universe - (result + {x})| < |universe - result|
  {
    assert universe - (result + {x}) == (universe - result) - {x};
  }

  // ---------------------------------------------------------------- what follows

  /** The result depends on the set of names that are asked for, not on their order or on
      how often they are listed. */
  lemma OrderDoesNotMatter(composites: Table, dependencies: Table, a: seq<string>, b: seq<string>,
                           ra: set<string>, rb: set<string>)
    requires forall s :: s in a <==> s in b
    requires Resolves(composites, dependencies, Elements(a), ra)
    requires Resolves(composites, dependencies, Elements(b), rb)
    ensures ra == rb
  {
  }

  /** Resolving a result again adds nothing to it and takes nothing away. */
  lemma Idempotent(composites: Table, dependencies: Table, from: set<string>, result: set<string>, again: set<string>)
    requires Resolves(composites, dependencies, from, result)
    requires Resolves(composites, dependencies, result, again)
    ensures again == result
  {
    forall s ensures s in result <==> s in again {
      if s in result {
        assert Path(composites, dependencies, result, [s]) && [s][0] == s;
      }
      if s in again {
        var p :| Path(composites, dependencies, result, p) && p[|p| - 1] == s;
        var q :| Path(composites, dependencies, from, q) && q[|q| - 1] == p[0];
        var r := q + p[1..];
        forall i | 0 < i < |r| ensures r[i] in Edges(composites, dependencies, r[i - 1]) {
          if i >= |q| {
            assert r[i] == p[i - |q| + 1] && r[i - 1] == p[i - |q|];
          }
        }
        assert Path(composites, dependencies, from, r) && r[|r| - 1] == s;
      }
    }
  }

  /** More names asked for never gives fewer services. */
  lemma Monotone(composites: Table, dependencies: Table, a: set<string>, b: set<string>, ra: set<string>, rb: set<string>)
    requires a <= b && Resolves(composites, dependencies, a, ra) && Resolves(composites, dependencies, b, rb)
    ensures ra <= rb
  {
  }

  // ---------------------------------------------------------------- the real tables

  const API_DEPENDENCIES: Table := map[
    "dynamodb" := ["dynamodbstreams"],
    "dynamodbstreams" := ["kinesis"],
    "es" := ["opensearch"],
    "cloudformation" := ["s3", "sts"],
    "lambda" := ["s3", "sts"],
    "firehose" := ["kinesis"],
    "transcribe" := ["s3"],
    "secretsmanager" := ["kms", "lambda"],
    "ssm" := ["secretsmanager"]
  ]

  const API_COMPOSITES: Table := map[
    "serverless" := ["cloudformation", "cloudwatch", "iam", "sts", "lambda", "dynamodb", "apigateway", "s3"],
    "cognito" := ["cognito-idp", "cognito-identity"],
    "timestream" := ["timestream-write", "timestream-query"]
  ]

  /** No composite of the real table names a composite, so the search always ends on it. */
  lemma RealCompositesAreAcyclic()
    ensures Acyclic(API_COMPOSITES, map[])
  {
  }

  function EdgesOf(s: string): seq<string> {
    Edges(API_COMPOSITES, API_DEPENDENCIES, s)
  }

  lemma ServerlessEdges()
    ensures EdgesOf("serverless") == ["cloudformation", "cloudwatch", "iam", "sts", "lambda", "dynamodb", "apigateway", "s3"]
    ensures EdgesOf("cloudformation") == ["s3", "sts"]
    ensures EdgesOf("lambda") == ["s3", "sts"]
    ensures EdgesOf("dynamodb") == ["dynamodbstreams"]
    ensures EdgesOf("dynamodbstreams") == ["kinesis"]
  {
  }

  lemma LeafEdges()
    ensures EdgesOf("cloudwatch") == [] && EdgesOf("iam") == [] && EdgesOf("sts") == []
    ensures EdgesOf("apigateway") == [] && EdgesOf("s3") == [] && EdgesOf("kinesis") == []
  {
  }

  /** The services that "serverless" names, and those they need beyond each other. */
  const SERVERLESS := Elements(API_COMPOSITES["serverless"]) + {"dynamodbstreams", "kinesis"}

  ghost predicate FromServerless(s: string) {
    Reachable(API_COMPOSITES, API_DEPENDENCIES, {"serverless"}, s)
  }

  lemma Next(s: string, t: string)
    requires FromServerless(s) && t in EdgesOf(s)
    ensures FromServerless(t)
  {
    Extend(API_COMPOSITES, API_DEPENDENCIES, {"serverless"}, s, t);
  }

  lemma NamesAreReached()
    ensures forall t | t in API_COMPOSITES["serverless"] :: FromServerless(t)
  {
    Start(API_COMPOSITES, API_DEPENDENCIES, {"serverless"});
    forall t | t in API_COMPOSITES["serverless"] ensures FromServerless(t) { Next("serverless", t); }
  }

  lemma NeedsAreReached()
    ensures FromServerless("dynamodbstreams") && FromServerless("kinesis")
  {
    NamesAreReached();
    assert API_COMPOSITES["serverless"][5] == "dynamodb";
    assert EdgesOf("dynamodb")[0] == "dynamodbstreams" && EdgesOf("dynamodbstreams")[0] == "kinesis";
    Next("dynamodb", "dynamodbstreams");
    Next("dynamodbstreams", "kinesis");
  }

  lemma ServerlessIsClosed(s: string)
    requires s in SERVERLESS
    ensures EdgeSet(API_COMPOSITES, API_DEPENDENCIES, s) <= SERVERLESS && s !in API_COMPOSITES
  {
    ServerlessEdges();
    LeafEdges();
  }

  /** A closed set of reachable services is what a composite stands for. */
  lemma FoundIfClosed(composites: Table, dependencies: Table, c: string, services: set<string>)
    requires c in composites && EdgeSet(composites, dependencies, c) <= services
    requires forall s | s in services ::
      s !in composites && EdgeSet(composites, dependencies, s) <= services && Reachable(composites, dependencies, {c}, s)
    ensures Resolves(composites, dependencies, {c}, services)
  {
    Finish(composites, dependencies, {c}, services, {c});
  }

  lemma ServerlessStands()
    ensures "serverless" in API_COMPOSITES && EdgeSet(API_COMPOSITES, API_DEPENDENCIES, "serverless") <= SERVERLESS
  {
  }

  lemma EachIsFound(s: string)
    requires s in SERVERLESS
    ensures s !in API_COMPOSITES && EdgeSet(API_COMPOSITES, API_DEPENDENCIES, s) <= SERVERLESS && FromServerless(s)
  {
    ServerlessIsClosed(s);
    if s in API_COMPOSITES["serverless"] {
      NamesAreReached();
    } else {
      NeedsAreReached();
    }
  }

  /** `resolve_apis(["serverless"])` on the tables of the repository. */
  lemma ServerlessResolved(result: set<string>)
    requires Resolves(API_COMPOSITES, API_DEPENDENCIES, {"serverless"}, result)
    ensures result == SERVERLESS
  {
    ServerlessStands();
    forall s | s in SERVERLESS
      ensures s !in API_COMPOSITES && EdgeSet(API_COMPOSITES, API_DEPENDENCIES, s) <= SERVERLESS && FromServerless(s)
    {
      EachIsFound(s);
    }
    FoundIfClosed(API_COMPOSITES, API_DEPENDENCIES, "serverless", SERVERLESS);
  }
}
