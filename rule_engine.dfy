/**
  Rules, visitors, the findings context and the dispatch engine.

  A handler is called with a node; it may read the findings filed so far and
  files findings of its own. In this model a handler is a function from the
  findings so far and the node to the findings it files, in filing order; the
  dispatcher files them into the context the rules were created for.
*/
module RuleEngine {
  import opened Wrappers
  import opened Estree
  import opened Walker

  /** A finding: the node at which a rule triggered, what was found, and an
      optional payload. */
  datatype Report = Report(node: Node, checkId: string, extra: Option<Json>)

  type Handler = (seq<Report>, Node) -> seq<Report>

  /** A visitor maps a node type tag to the handler for nodes of that type;
      tags it does not map are no-ops. */
  type Visitor = map<string, Handler>

  /** A rule, as the visitor its `create` returns for a run. */
  datatype Rule = Rule(visitor: Visitor)

  /** The append-only log of findings of one or more runs. */
  class Context {
    var reports: seq<Report>

    constructor ()
      ensures reports == []
    {
      reports := [];
    }

    /** Files one finding at the end of the log. */
    method Report(report: Report)
      modifies this
      ensures reports == old(reports) + [report]
    {
      reports := reports + [report];
    }

    /** Every finding filed so far, in filing order. */
    method GetReports() returns (rs: seq<Report>)
      ensures rs == reports
    {
      rs := reports;
    }
  }

  /** A handler that files one finding, with the given check id, on each node
      it is called with. */
  function ReportOnce(checkId: string): Handler
  {
    (log: seq<Report>, n: Node) => [Report(n, checkId, None)]
  }

  /** The log after one rule's visitor has handled node `n`. */
  function Handle(log: seq<Report>, rule: Rule, n: Node): (r: seq<Report>)
    ensures log <= r
    ensures n.tag !in rule.visitor ==> r == log
  {
    if n.tag in rule.visitor then log + rule.visitor[n.tag](log, n) else log
  }

  /** The log after the enter event for `n`: every rule's handler for n's tag,
      in rule-list order, each seeing what the earlier ones filed. */
  function EnterNode(log: seq<Report>, rules: seq<Rule>, n: Node): (r: seq<Report>)
    ensures log <= r
  {
    if rules == [] then log
    else Handle(EnterNode(log, rules[..|rules| - 1], n), rules[|rules| - 1], n)
  }

  /** The log after the enter events for `nodes`, in order. */
  function Dispatch(log: seq<Report>, rules: seq<Rule>, nodes: seq<Node>): (r: seq<Report>)
    ensures log <= r
  {
    if nodes == [] then log
    else EnterNode(Dispatch(log, rules, nodes[..|nodes| - 1]), rules, nodes[|nodes| - 1])
  }

  /** Runs `rules` over the tree `ast` in one walk, filing their findings into
      `context`, which is returned. The walk never skips and registers no
      leave listener; on each enter, every rule's handler for the node's type
      is called in rule-list order. */
  method RunRules(ast: Node, rules: seq<Rule>, context: Context) returns (result: Context)
    modifies context
    ensures result == context
    ensures context.reports == Dispatch(old(context.reports), rules, Nodes(ast))
  {
    var trace := Walk(RootVisit(ast), NeverSkip);
    EnteredIsPreOrder(RootVisit(ast));
    var k := 0;
    while k < |trace|
      invariant 0 <= k <= |trace|
      invariant context.reports == Dispatch(old(context.reports), rules, Entered(trace[..k]))
    {
      ghost var entered := Entered(trace[..k]);
      EnteredStep(trace, k);
      if trace[k].Enter? {
        var node := trace[k].visit.node;
        EnterListener(rules, node, context);
        DispatchStep(old(context.reports), rules, entered, node);
        assert Entered(trace[..k + 1]) == entered + [node];
      } else {
        assert Entered(trace[..k + 1]) == entered;
      }
      k := k + 1;
    }
    assert trace[..|trace|] == trace;
    result := context;
  }

  /** The enter listener of a run: every rule's handler for the node's type,
      in rule-list order, files its findings into `context`. */
  method EnterListener(rules: seq<Rule>, node: Node, context: Context)
    modifies context
    ensures context.reports == EnterNode(old(context.reports), rules, node)
  {
    var i := 0;
    while i < |rules|
      invariant 0 <= i <= |rules|
      invariant context.reports == EnterNode(old(context.reports), rules[..i], node)
    {
      assert rules[..i + 1][..i] == rules[..i];
      var visitor := rules[i].visitor;
      if node.tag in visitor {
        var handler := visitor[node.tag];
        var filed := handler(context.reports, node);
        FileAll(filed, context);
      }
      i := i + 1;
    }
    assert rules[..|rules|] == rules;
  }

  /** Files `filed` into `context`, one finding after the other. */
  method FileAll(filed: seq<Report>, context: Context)
    modifies context
    ensures context.reports == old(context.reports) + filed
  {
    var j := 0;
    while j < |filed|
      invariant 0 <= j <= |filed|
      invariant context.reports == old(context.reports) + filed[..j]
    {
      assert filed[..j + 1] == filed[..j] + [filed[j]];
      context.Report(filed[j]);
      j := j + 1;
    }
    assert filed[..|filed|] == filed;
  }

  lemma EnteredStep(t: seq<Event>, k: nat)
    requires k < |t|
    ensures Entered(t[..k + 1]) == Entered(t[..k]) + (if t[k].Enter? then [t[k].visit.node] else [])
  {
    assert t[..k + 1][..k] == t[..k];
  }

  lemma DispatchStep(log: seq<Report>, rules: seq<Rule>, nodes: seq<Node>, n: Node)
    ensures Dispatch(log, rules, nodes + [n]) == EnterNode(Dispatch(log, rules, nodes), rules, n)
  {
    assert (nodes + [n])[..|nodes|] == nodes;
    assert (nodes + [n])[|nodes|] == n;
  }

  /** `runRules` without a context: a fresh one is created and returned. */
  method RunRulesFresh(ast: Node, rules: seq<Rule>) returns (context: Context)
    ensures fresh(context)
    ensures context.reports == Dispatch([], rules, Nodes(ast))
  {
    context := new Context();
    context := RunRules(ast, rules, context);
  }

  /** No rule has a handler for the type of any of `nodes`. */
  ghost predicate NoHandlerFor(rules: seq<Rule>, nodes: seq<Node>)
  {
    forall i, n :: 0 <= i < |rules| && n in nodes ==> n.tag !in rules[i].visitor
  }

  /** Rules with no handler for any node's type (an empty visitor in
      particular) file nothing. */
  lemma {:induction false} NoHandlerNoReports(log: seq<Report>, rules: seq<Rule>, nodes: seq<Node>)
    requires NoHandlerFor(rules, nodes)
    ensures Dispatch(log, rules, nodes) == log
    decreases |nodes|
  {
    if nodes != [] {
      var init := nodes[..|nodes| - 1];
      assert NoHandlerFor(rules, init) by {
        forall i, n | 0 <= i < |rules| && n in init ensures n.tag !in rules[i].visitor {
          assert n in nodes;
        }
      }
      NoHandlerNoReports(log, rules, init);
      var n := nodes[|nodes| - 1];
      forall r | r in rules ensures n.tag !in r.visitor {
        var i :| 0 <= i < |rules| && rules[i] == r;
      }
      NoHandlerAtNode(log, rules, n);
    }
  }

  lemma {:induction false} NoHandlerAtNode(log: seq<Report>, rules: seq<Rule>, n: Node)
    requires forall r :: r in rules ==> n.tag !in r.visitor
    ensures EnterNode(log, rules, n) == log
    decreases |rules|
  {
    if rules != [] {
      assert rules[|rules| - 1] in rules;
      NoHandlerAtNode(log, rules[..|rules| - 1], n);
    }
  }

  /** Dispatching over two node sequences in turn is dispatching over their
      concatenation: a context reused across runs accumulates the reports of
      each run after those of the earlier ones. */
  lemma {:induction false} DispatchAppend(log: seq<Report>, rules: seq<Rule>, a: seq<Node>, b: seq<Node>)
    ensures Dispatch(log, rules, a + b) == Dispatch(Dispatch(log, rules, a), rules, b)
    decreases |b|
  {
    if b == [] {
      assert a + b == a;
    } else {
      assert (a + b)[..|a + b| - 1] == a + b[..|b| - 1];
      assert (a + b)[|a + b| - 1] == b[|b| - 1];
      DispatchAppend(log, rules, a, b[..|b| - 1]);
    }
  }

  /** Every handler files the same findings whatever the log it sees. */
  ghost predicate LogIndependent(rules: seq<Rule>)
  {
    forall i, l1: seq<Report>, l2: seq<Report>, n: Node :: 0 <= i < |rules| && n.tag in rules[i].visitor ==>
      rules[i].visitor[n.tag](l1, n) == rules[i].visitor[n.tag](l2, n)
  }

  /** Reference order of the findings of one node: rule-list order. */
  function FiledAt(rules: seq<Rule>, n: Node): seq<Report>
  {
    if rules == [] then []
    else
      var rule := rules[|rules| - 1];
      FiledAt(rules[..|rules| - 1], n) + (if n.tag in rule.visitor then rule.visitor[n.tag]([], n) else [])
  }

  /** Reference order of the findings of a walk: node order, then rule-list
      order within a node. */
  function Filed(rules: seq<Rule>, nodes: seq<Node>): seq<Report>
  {
    if nodes == [] then []
    else Filed(rules, nodes[..|nodes| - 1]) + FiledAt(rules, nodes[|nodes| - 1])
  }

  /** With handlers that do not look at the log, dispatch appends exactly the
      reference sequence: node order, then rule-list order within a node. */
  lemma {:induction false} DispatchOrder(log: seq<Report>, rules: seq<Rule>, nodes: seq<Node>)
    requires LogIndependent(rules)
    ensures Dispatch(log, rules, nodes) == log + Filed(rules, nodes)
    decreases |nodes|
  {
    if nodes == [] {
      assert log + [] == log;
    } else {
      var init := nodes[..|nodes| - 1];
      var n := nodes[|nodes| - 1];
      DispatchOrder(log, rules, init);
      EnterNodeOrder(Dispatch(log, rules, init), rules, n);
      assert Filed(rules, nodes) == Filed(rules, init) + FiledAt(rules, n);
      assert log + Filed(rules, init) + FiledAt(rules, n) == log + Filed(rules, nodes);
    }
  }

  lemma {:induction false} EnterNodeOrder(log: seq<Report>, rules: seq<Rule>, n: Node)
    requires LogIndependent(rules)
    ensures EnterNode(log, rules, n) == log + FiledAt(rules, n)
    decreases |rules|
  {
    if rules == [] {
      assert log + [] == log;
    } else {
      var init := rules[..|rules| - 1];
      var rule := rules[|rules| - 1];
      assert LogIndependent(init) by {
        forall i, l1: seq<Report>, l2: seq<Report>, m: Node | 0 <= i < |init| && m.tag in init[i].visitor
          ensures init[i].visitor[m.tag](l1, m) == init[i].visitor[m.tag](l2, m)
        {
          assert init[i] == rules[i];
        }
      }
      EnterNodeOrder(log, init, n);
      if n.tag in rule.visitor {
        var before := EnterNode(log, init, n);
        assert rule.visitor[n.tag](before, n) == rule.visitor[n.tag]([], n) by {
          assert rules[|rules| - 1] == rule;
        }
      }
    }
  }

  /** The findings a `ReportOnce(checkId)` handler files on `ns`, in order. */
  function ReportsOn(ns: seq<Node>, checkId: string): (r: seq<Report>)
  {
    seq(|ns|, k requires 0 <= k < |ns| => Report(ns[k], checkId, None))
  }

  /** A single rule whose only handler files one report per call on nodes of
      type `tag` files exactly one report per such node, in walk order. */
  lemma {:induction false} SingleHandlerReportsEachMatch(log: seq<Report>, tag: string, checkId: string, nodes: seq<Node>)
    ensures var rules := [Rule(map[tag := ReportOnce(checkId)])];
      var found := OfTag(nodes, tag);
      && Dispatch(log, rules, nodes) == log + ReportsOn(found, checkId)
      && |Dispatch(log, rules, nodes)| == |log| + |found|
      && forall k :: |log| <= k < |Dispatch(log, rules, nodes)| ==>
           Dispatch(log, rules, nodes)[k].node.tag == tag
    decreases |nodes|
  {
    var rules := [Rule(map[tag := ReportOnce(checkId)])];
    if nodes == [] {
      assert log + [] == log;
    } else {
      var init := nodes[..|nodes| - 1];
      var n := nodes[|nodes| - 1];
      SingleHandlerReportsEachMatch(log, tag, checkId, init);
      assert rules[..0] == [];
      var found := OfTag(init, tag);
      var d := Dispatch(log, rules, init);
      if n.tag == tag {
        assert OfTag(nodes, tag) == found + [n];
        assert ReportOnce(checkId)(d, n) == [Report(n, checkId, None)];
        assert EnterNode(d, rules, n) == d + [Report(n, checkId, None)];
        assert ReportsOn(found + [n], checkId) == ReportsOn(found, checkId) + [Report(n, checkId, None)];
      } else {
        assert OfTag(nodes, tag) == found;
        assert n.tag !in rules[0].visitor;
        assert EnterNode(Dispatch(log, rules, init), rules, n) == Dispatch(log, rules, init);
      }
    }
  }

  /** The rule of the context test: one report per `Program` node. */
  function ProgramRule(): Rule
  {
    Rule(map["Program" := ReportOnce("found-program")])
  }

  lemma OneProgramReport(log: seq<Report>, tree: Node)
    requires OfTag(Nodes(tree), "Program") == [tree]
    ensures Dispatch(log, [ProgramRule()], Nodes(tree)) == log + [Report(tree, "found-program", None)]
  {
    SingleHandlerReportsEachMatch(log, "Program", "found-program", Nodes(tree));
    assert ReportsOn([tree], "found-program") == [Report(tree, "found-program", None)];
  }

  /** A context passed to two runs in turn ends up holding the first run's
      report followed by the second's, each on its own tree. */
  method ExistingContextAccumulates(first: Node, second: Node) returns (context: Context)
    requires OfTag(Nodes(first), "Program") == [first]
    requires OfTag(Nodes(second), "Program") == [second]
    ensures context.reports == [Report(first, "found-program", None), Report(second, "found-program", None)]
  {
    context := new Context();
    OneProgramReport([], first);
    var returned := RunRules(first, [ProgramRule()], context);
    assert context.reports == [Report(first, "found-program", None)];
    OneProgramReport(context.reports, second);
    returned := RunRules(second, [ProgramRule()], returned);
  }
}
