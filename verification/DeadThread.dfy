/** A boot in which a start thread dies: its result names no unit, so the unit is neither recorded
    as failed nor as started, and what requires it goes on
    (src/applets/core/init/mod.rs). */
module DeadThread {
  import opened Graphs
  import opened Prelude
  import opened Units
  import opened Depths
  import opened Boot
  import opened BootSafety
  import opened StartUnit
  import Services

  /** A forking service whose TimeoutStartSec is the largest that its 64 bits with a sign hold. */
  const HUGE_TIMEOUT := PLAIN_SERVICE.(forking := true, timeoutStartSec := 0x7fff_ffff_ffff_ffff)

  /** The root target requires the service "a", which requires the service "b". */
  function ThreeUnits(): Table {
    map["root" := Unit(true, [], ["a"], [], [], [], [], [], [], PLAIN_SERVICE),
        "a" := Unit(false, [], ["b"], [], [], [], [], [], [], PLAIN_SERVICE),
        "b" := Unit(false, [], [], [], [], [], [], [], [], HUGE_TIMEOUT)]
  }

  const ORDER := ["b", "a", "root"]
  const DEPTHS: map<Name, nat> := map["b" := 0, "a" := 1, "root" := 2]

  /** One second after the machine has started every command can be spawned and goes well. */
  const FINE := Command(true, Services.NANOS_PER_SEC, Some(0))

  function Worlds(): Name -> StartWorld {
    n => StartWorld(true, k => FINE, FINE, k => FINE, StopWorld(FINE, FINE.now, k => FINE))
  }

  function Outcomes(): Name -> Outcome {
    Starting(ThreeUnits(), Worlds())
  }

  /** The thread that starts "b" dies; "a" is started. */
  lemma OutcomesOfStarts()
    ensures Outcomes()("b") == Panicked && LateDeadline(ThreeUnits()["b"], Worlds()("b"))
    ensures Outcomes()("a") == Spawned(true)
  {
    DiesIffLate(ThreeUnits()["b"], Worlds()("b"));
  }

  lemma SortEdges(n: Name, d: Name)
    ensures Edge(SortGraph(ThreeUnits()), n, d) <==> (n == "root" && d == "a") || (n == "a" && d == "b")
  {
    SortEdge(ThreeUnits(), n, d);
  }

  lemma LayerEdges(n: Name, d: Name)
    ensures Edge(LayerGraph(ORDER, ThreeUnits()), n, d) <==> (n == "root" && d == "a") || (n == "a" && d == "b")
  {
    LayerEdge(ORDER, ThreeUnits(), n, d);
    assert ORDER[0] == "b" && ORDER[1] == "a" && ORDER[2] == "root";
  }

  lemma IsStartOrder()
    ensures StartOrder(SortGraph(ThreeUnits()), "root", ORDER)
  {
    var g := SortGraph(ThreeUnits());
    SortEdges("root", "a");
    SortEdges("a", "b");
    ReachesSelf(g, "root");
    EdgeReaches(g, "root", "a");
    EdgeExtends(g, "root", "a", "b");
    assert ORDER[0] == "b" && ORDER[1] == "a" && ORDER[2] == "root";
    forall j, d | 0 <= j < |ORDER| && d in g && Edge(g, ORDER[j], d) ensures d in ORDER[..j] {
      SortEdges(ORDER[j], d);
      assert ORDER[..j][j - 1] == d;
    }
  }

  lemma StableThree(g: Graph)
    requires g.Keys == {"b", "a", "root"}
    requires forall n, d :: Edge(g, n, d) <==> (n == "root" && d == "a") || (n == "a" && d == "b")
    ensures Stable(g, DEPTHS)
  {
    assert Edge(g, "root", "a") && Edge(g, "a", "b");
  }

  lemma ThreeNodes()
    ensures Nodes(ORDER, ThreeUnits()) == {"b", "a", "root"}
    ensures NoDuplicates(ORDER) && forall n :: n in ORDER ==> n in ThreeUnits()
  {
    assert ORDER[0] == "b" && ORDER[1] == "a" && ORDER[2] == "root";
  }

  lemma IsLayered()
    ensures Layered(ThreeUnits(), ORDER, DEPTHS)
  {
    var g := LayerGraph(ORDER, ThreeUnits());
    LayerGraphSelfContained(ORDER, ThreeUnits());
    ThreeNodes();
    forall n, d ensures Edge(g, n, d) <==> (n == "root" && d == "a") || (n == "a" && d == "b") {
      LayerEdges(n, d);
    }
    StableThree(g);
    StableIsLongest(g, DEPTHS);
  }

  lemma Layers()
    ensures Layer(ORDER, DEPTHS, 0) == ["b"] && Layer(ORDER, DEPTHS, 1) == ["a"] && Layer(ORDER, DEPTHS, 2) == ["root"]
  {
    assert ORDER[..2] == ["b", "a"] && ["b", "a"][..1] == ["b"] && ["b"][..0] == [];
    forall k: nat | k < 3
      ensures Layer(ORDER, DEPTHS, k) == Layer(["b", "a"], DEPTHS, k) + if k == 2 then ["root"] else []
    {
    }
  }

  /** A layer of one unit, in which nothing crashes late. */
  lemma OneUnitLayer(units: Table, order: seq<Name>, depths: map<Name, nat>, depth: nat, outcome: Name -> Outcome,
                     n: Name, before: State, after: State)
    requires Layer(order, depths, depth) == [n] && n in units && n !in before.ok
    requires forall m :: InLayer(units, order, depths, depth, m) <==> m == n
    requires after.ok == match Verdict(units[n], before.ok, outcome(n))
                         case Some(v) => before.ok[n := v]
                         case None => before.ok
    requires after.starts == before.starts + if Starts(units[n], before.ok) then [n] else []
    requires after.services == before.services
      + if Starts(units[n], before.ok) && outcome(n).Spawned?
        then [NewInstance(n, units[n], outcome(n).hasChild)]
        else []
    ensures LayerStep(units, order, depths, depth, outcome, before, after)
  {
    StartedAlone(units, n, before.ok, outcome);
    forall m ensures VerdictRecorded(units, order, depths, depth, outcome, before.ok, after.ok, m) {
      OneVerdict(units[n], n, before.ok, after.ok, outcome(n), m);
    }
    assert LayerStarted(units, order, depths, depth, outcome, before, after);
    NoCrash(Needed(units, order, depths, depth), after);
  }

  lemma StartedAlone(units: Table, n: Name, ok: map<Name, bool>, outcome: Name -> Outcome)
    requires n in units
    ensures var started := Started(units, [n], ok);
      && started == (if Starts(units[n], ok) then [n] else [])
      && Instances(units, started, outcome)
         == if Starts(units[n], ok) && outcome(n).Spawned? then [NewInstance(n, units[n], outcome(n).hasChild)] else []
  {
    assert [n][..0] == [];
  }

  lemma OneVerdict(u: Unit, n: Name, before: map<Name, bool>, after: map<Name, bool>, outcome: Outcome, m: Name)
    requires n !in before
    requires after == match Verdict(u, before, outcome) case Some(v) => before[n := v] case None => before
    ensures Entry(after, m) == if m == n then Verdict(u, before, outcome) else Entry(before, m)
  {
  }

  lemma NoCrash(needed: set<Name>, s: State)
    ensures CrashesDetected(needed, s, s)
  {
  }

  const A := Instance("a", true, false, false, false)
  const AFTER_B := State([], map[], ["b"])
  const AFTER_A := State([A], map["a" := true], ["b", "a"])
  const FINAL := State([A], map["a" := true, "root" := true], ["b", "a"])
  const RUN := [INITIAL, AFTER_B, AFTER_A, FINAL]

  lemma InLayers(k: nat, m: Name)
    ensures InLayer(ThreeUnits(), ORDER, DEPTHS, k, m)
      <==> (k == 0 && m == "b") || (k == 1 && m == "a") || (k == 2 && m == "root")
  {
    assert ORDER[0] == "b" && ORDER[1] == "a" && ORDER[2] == "root";
  }

  lemma StepOfB()
    ensures LayerStep(ThreeUnits(), ORDER, DEPTHS, 0, Outcomes(), INITIAL, AFTER_B)
  {
    Layers();
    forall m ensures InLayer(ThreeUnits(), ORDER, DEPTHS, 0, m) <==> m == "b" { InLayers(0, m); }
    OutcomesOfStarts();
    assert Starts(ThreeUnits()["b"], map[]);
    OneUnitLayer(ThreeUnits(), ORDER, DEPTHS, 0, Outcomes(), "b", INITIAL, AFTER_B);
  }

  lemma StepOfA()
    ensures LayerStep(ThreeUnits(), ORDER, DEPTHS, 1, Outcomes(), AFTER_B, AFTER_A)
  {
    Layers();
    forall m ensures InLayer(ThreeUnits(), ORDER, DEPTHS, 1, m) <==> m == "a" { InLayers(1, m); }
    OutcomesOfStarts();
    assert Starts(ThreeUnits()["a"], map[]);
    assert NewInstance("a", ThreeUnits()["a"], true) == A;
    OneUnitLayer(ThreeUnits(), ORDER, DEPTHS, 1, Outcomes(), "a", AFTER_B, AFTER_A);
  }

  lemma StepOfRoot()
    ensures LayerStep(ThreeUnits(), ORDER, DEPTHS, 2, Outcomes(), AFTER_A, FINAL)
  {
    Layers();
    forall m ensures InLayer(ThreeUnits(), ORDER, DEPTHS, 2, m) <==> m == "root" { InLayers(2, m); }
    assert !RequiredFailed(ThreeUnits()["root"], AFTER_A.ok);
    OneUnitLayer(ThreeUnits(), ORDER, DEPTHS, 2, Outcomes(), "root", AFTER_A, FINAL);
  }

  lemma StepOf(k: nat)
    requires k < |RUN| - 1
    ensures LayerStep(ThreeUnits(), ORDER, DEPTHS, k, Outcomes(), RUN[k], RUN[k + 1])
  {
    if k == 0 { StepOfB(); } else if k == 1 { StepOfA(); } else { StepOfRoot(); }
  }

  lemma IsBootRun()
    ensures BootRun(ThreeUnits(), ORDER, DEPTHS, Outcomes(), RUN)
  {
    forall k | 0 <= k < |RUN| - 1 ensures LayerStep(ThreeUnits(), ORDER, DEPTHS, k, Outcomes(), RUN[k], RUN[k + 1]) {
      StepOf(k);
    }
  }

  lemma IsComplete()
    ensures CompleteRun(ThreeUnits(), ORDER, DEPTHS, Outcomes(), RUN)
  {
    IsBootRun();
    assert "root" in DEPTHS && DEPTHS["root"] + 2 == |RUN|;
  }

  /** A boot that start order, layers, `start_unit` and start loop allow: the deadline of "b" lies
      beyond the last instant, "b" gets no entry, its dependent "a" is started all the same, and the
      root target is reached. The process of "b" has been spawned, but no shutdown knows it. */
  lemma DeadThreadGoesUnnoticed()
    ensures StartOrder(SortGraph(ThreeUnits()), "root", ORDER) && Layered(ThreeUnits(), ORDER, DEPTHS)
    ensures CompleteRun(ThreeUnits(), ORDER, DEPTHS, Outcomes(), RUN)
    ensures LateDeadline(ThreeUnits()["b"], Worlds()("b"))
    ensures "b" in ThreeUnits()["a"].required && "b" !in FINAL.ok
    ensures "a" in FINAL.starts && RecordedTrue(FINAL.ok, "root")
    ensures MainSpawned(ThreeUnits()["b"], Worlds()("b")) && "b" !in NamesOf(FINAL.services)
  {
    IsStartOrder();
    IsLayered();
    IsComplete();
    OutcomesOfStarts();
    assert FINAL.starts[1] == "a";
  }
}
