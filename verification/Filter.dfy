/** Finding the rows a condition accepts through the indexes (`index_filter`,
    `and_terms`, `candidates` and `eval_expr` in zega/src/v2.rs, `candidates` and
    `and_group` in zega/src/v2/chain.rs).

    Walks to other nodes, distances and the tests no index answers are
    parameters, with what is assumed of them under `Lawful`. */
module Filters {
  import opened Graphs
  import opened Indexes
  import opened Machine
  import opened Values
  import opened Wrappers
  import L = Locations
  import R = Ranges
  import T = TextIndexes

  // ----- conditions -----

  datatype Test =
      // `=`, `<`, `<=`, `>` and `>=`.
    | Compare(field: string, pred: R.Pred)
    | Matching(field: string, pattern: T.Pattern)
    | Within(field: string, box: L.Bounds)
    | Around(disc: string)
      // A walk that is made or, negated, not; `same` names nodes of other walks.
    | Walk(walk: string, same: bool, negated: bool)
    | Otherwise(test: string)

  datatype Expr = One(test: Test) | And(terms: seq<Expr>) | Or(terms: seq<Expr>)

  // What the conditions ask of the rest of the engine: whether another test is
  // passed, a disc contains it or a walk can be made, whether walks can be made
  // that agree on what `same` names, where a walk can start, and what the
  // spatial index finds around a disc.
  datatype Engine = Engine(
    near: R.Nearest,
    fl: L.Rounding,
    pointOf: Value -> Option<L.Point>,
    passes: (string, u64) -> bool,
    isNear: (string, u64) -> bool,
    walks: (string, u64) -> bool,
    together: (seq<Test>, u64) -> bool,
    starts: string -> Option<set<u64>>,
    around: string -> set<u64>)

  ghost predicate Lawful(g: Engine) {
    && R.MonotoneCast(g.near) && L.Monotone(g.fl)
    && (forall v :: g.pointOf(v).Some? ==> -180.0 <= g.pointOf(v).value.lon <= 180.0)
    && (forall walk: string, id: u64 :: g.starts(walk).Some? && g.walks(walk, id) ==> id in g.starts(walk).value)
    && (forall disc: string, id: u64 :: g.isNear(disc, id) ==> id in g.around(disc))
    && (forall tests: seq<Test>, t: Test, id: u64 :: g.together(tests, id) && t in tests && t.Walk? && !t.same ==> g.walks(t.walk, id))
  }

  const ID := "@id"

  // `@id` reads the node's id, whatever the node holds.
  function Field(id: u64, node: Node, field: string): R.Json {
    if field == ID then R.Whole(id) else R.Read(Get(node.props, field))
  }

  function PointIn(g: Engine, node: Node, field: string): Option<L.Point> {
    if field in node.props then g.pointOf(node.props[field]) else None
  }

  predicate Passes(g: Engine, id: u64, node: Node, t: Test) {
    match t
    case Compare(field, pred) => R.Meets(g.near, Field(id, node, field), pred)
    case Matching(field, p) => Field(id, node, field).JText? && T.Matches(p, Field(id, node, field).s)
    case Within(field, box) => PointIn(g, node, field).Some? && L.Contains(box, PointIn(g, node, field).value)
    case Around(disc) => g.isNear(disc, id)
    case Walk(walk, same, negated) => g.walks(walk, id) != negated
    case Otherwise(test) => g.passes(test, id)
  }

  // A walk of a group that is made together with the others.
  predicate IsMade(e: Expr) {
    e.One? && e.test.Walk? && !e.test.negated
  }

  function Made(terms: seq<Expr>): seq<Test> {
    if terms == [] then [] else (if IsMade(terms[0]) then [terms[0].test] else []) + Made(terms[1..])
  }

  predicate Correlated(terms: seq<Expr>) {
    exists t <- terms :: t.One? && t.test.Walk? && t.test.same
  }

  predicate Accepts(g: Engine, id: u64, node: Node, e: Expr) {
    match e
    case One(t) => Passes(g, id, node, t)
    case And(terms) =>
      if Correlated(terms)
      then (forall t <- terms :: IsMade(t) || Accepts(g, id, node, t)) && g.together(Made(terms), id)
      else forall t <- terms :: Accepts(g, id, node, t)
    case Or(terms) => exists t <- terms :: Accepts(g, id, node, t)
  }

  // What the parser sees to.
  predicate Parsed(e: Expr) {
    match e
    case One(t) => (t.Compare? ==> R.IsJson(t.pred.value)) && (t.Within? ==> L.IsBox(t.box))
    case And(terms) => forall t <- terms :: Parsed(t)
    case Or(terms) => forall t <- terms :: Parsed(t)
  }

  // ----- the terms of a conjunction -----

  function Size(e: Expr): (n: nat)
    ensures n > 0
  {
    match e
    case One(_) => 1
    case And(terms) => 1 + SizeOf(terms)
    case Or(terms) => 1 + SizeOf(terms)
  }

  function SizeOf(es: seq<Expr>): nat {
    if es == [] then 0 else Size(es[0]) + SizeOf(es[1..])
  }

  lemma {:induction false} PartsAreSmaller(es: seq<Expr>, e: Expr)
    requires e in es
    ensures Size(e) <= SizeOf(es)
    decreases |es|
  {
    if e != es[0] {
      PartsAreSmaller(es[1..], e);
    }
  }

  // Conjunctions in a conjunction, opened.
  function Terms(e: Expr): (ts: seq<Expr>)
    ensures forall t <- ts :: Size(t) <= Size(e) && !t.And?
    decreases Size(e), 0
  {
    match e
    case And(terms) => TermsOf(terms)
    case _ => [e]
  }

  function TermsOf(es: seq<Expr>): (ts: seq<Expr>)
    ensures forall t <- ts :: Size(t) <= SizeOf(es) && !t.And?
    decreases SizeOf(es), |es|
  {
    if es == [] then [] else Terms(es[0]) + TermsOf(es[1..])
  }

  // ----- what a filter finds -----

  // The types asked for, and the indexes there are.
  datatype Indexed = Indexed(types: seq<string>, range: set<Slot>, text: set<Slot>)

  predicate Covers(slots: set<Slot>, types: seq<string>, field: string) {
    forall ty <- types :: Slot(ty, field) in slots
  }

  function IntervalOf(g: Engine, t: Test): Option<R.Interval> {
    if t.Compare? && t.field != ID then R.IntervalOf(g.near, t.pred) else None
  }

  predicate IsRange(g: Engine, ix: Indexed, e: Expr) {
    e.One? && IntervalOf(g, e.test).Some? && Covers(ix.range, ix.types, e.test.field)
  }

  predicate IsWalk(e: Expr) {
    e.One? && e.test.Walk?
  }

  function StartsOf(g: Engine, t: Test): Option<set<u64>>
    requires t.Walk?
  {
    if t.same || t.negated then None else g.starts(t.walk)
  }

  // Whether a filter finds anything, rather than leaving it to a scan.
  predicate Answered(g: Engine, ix: Indexed, e: Expr)
    decreases Size(e)
  {
    match e
    case One(t) =>
      (match t
       case Compare(_, _) => IsRange(g, ix, e)
       case Matching(field, _) => Covers(ix.text, ix.types, field)
       case Within(_, _) => true
       case Around(_) => true
       case Walk(_, _, _) => StartsOf(g, t).Some?
       case Otherwise(_) => false)
    case And(terms) => exists t <- TermsOf(terms) :: Answered(g, ix, t)
    case Or(terms) => forall t <- terms :: (PartsAreSmaller(terms, t); Answered(g, ix, t))
  }

  predicate InRange(g: Engine, ix: Indexed, nodes: map<u64, Node>, id: u64, field: string, interval: R.Interval) {
    id in nodes && exists ty <- ix.types :: IsIn(g.near, interval, Slot(ty, field), nodes[id])
  }

  predicate FoundByTest(g: Engine, ix: Indexed, nodes: map<u64, Node>, id: u64, t: Test) {
    match t
    case Compare(field, _) => IntervalOf(g, t).Some? && InRange(g, ix, nodes, id, field, IntervalOf(g, t).value)
    case Matching(field, p) => id in nodes && exists ty <- ix.types :: MayMatch(p, Slot(ty, field), nodes[id])
    case Within(field, box) =>
      && id in nodes && PointIn(g, nodes[id], field).Some?
      && var p := PointIn(g, nodes[id], field).value;
         L.AnyBlockMeets(L.RectsOf(g.fl, box), L.Column(g.fl, p.lon), L.Row(g.fl, p.lat))
    case Around(disc) => id in g.around(disc)
    case Walk(_, _, _) => StartsOf(g, t).Some? && id in StartsOf(g, t).value
    case Otherwise(_) => false
  }

  // Walks are only asked when no other term has an answer, the first that has.
  function FirstWalk(g: Engine, ix: Indexed, terms: seq<Expr>): (r: Option<Expr>)
    ensures r.Some? ==> r.value in terms && IsWalk(r.value) && StartsOf(g, r.value.test).Some?
    ensures r.None? ==> forall t <- terms :: IsWalk(t) ==> StartsOf(g, t.test).None?
  {
    if terms == [] then None
    else if IsWalk(terms[0]) && StartsOf(g, terms[0].test).Some? then Some(terms[0])
    else FirstWalk(g, ix, terms[1..])
  }

  predicate Found(g: Engine, ix: Indexed, nodes: map<u64, Node>, id: u64, e: Expr)
    decreases Size(e)
  {
    match e
    case One(t) => FoundByTest(g, ix, nodes, id, t)
    case And(terms) =>
      var ts := TermsOf(terms);
      if exists t <- ts :: !IsWalk(t) && Answered(g, ix, t)
      then forall t <- ts :: !IsWalk(t) && Answered(g, ix, t) ==> Found(g, ix, nodes, id, t)
      else FirstWalk(g, ix, ts).Some? && FoundByTest(g, ix, nodes, id, FirstWalk(g, ix, ts).value.test)
    case Or(terms) => exists t <- terms :: (PartsAreSmaller(terms, t); Found(g, ix, nodes, id, t))
  }

  // ----- every row that is accepted is found -----

  predicate HasType(types: seq<string>, node: Node) {
    exists ty <- types :: ty in node.labels
  }

  lemma {:induction false} PassedIsFound(g: Engine, ix: Indexed, nodes: map<u64, Node>, id: u64, t: Test)
    requires Lawful(g) && Parsed(One(t)) && id in nodes && HasType(ix.types, nodes[id])
    requires Passes(g, id, nodes[id], t) && Answered(g, ix, One(t))
    ensures FoundByTest(g, ix, nodes, id, t)
  {
    hide R.Meets, R.IntervalOf, R.In, R.KeyOf, T.Matches, T.MayMatch, L.Contains, L.RectsOf, L.AnyBlockMeets, L.Column, L.Row, L.IsBox, R.IsJson, L.Monotone, R.MonotoneCast;
    var node := nodes[id];
    var ty :| ty in ix.types && ty in node.labels;
    match t
    case Compare(field, pred) =>
      R.SatisfiedIsIn(g.near, Get(node.props, field), pred);
      assert IsIn(g.near, IntervalOf(g, t).value, Slot(ty, field), node);
    case Matching(field, p) =>
      assert TextMatches(p, Slot(ty, field), node);
      MatchMayMatch(p, Slot(ty, field), node);
    case Within(field, box) =>
      L.ContainedPointsAreCovered(g.fl, box, PointIn(g, node, field).value);
    case _ =>
  }

  lemma {:induction false} MadeHas(terms: seq<Expr>, e: Expr)
    requires e in terms && IsMade(e)
    ensures e.test in Made(terms)
    decreases |terms|
  {
    if e != terms[0] {
      MadeHas(terms[1..], e);
    }
  }

  // A conjunction accepts a row only if every term does, up to walks that name
  // each other's nodes.
  lemma {:induction false} TermsAccept(g: Engine, id: u64, node: Node, e: Expr, t: Expr)
    requires Lawful(g) && Accepts(g, id, node, e) && t in Terms(e)
    ensures Accepts(g, id, node, t) || (IsMade(t) && t.test.same)
    decreases Size(e), 0
  {
    if e.And? {
      TermsOfAccept(g, id, node, e, e.terms, t);
    }
  }

  lemma {:induction false} TermsOfAccept(g: Engine, id: u64, node: Node, e: Expr, es: seq<Expr>, t: Expr)
    requires Lawful(g) && e.And? && Accepts(g, id, node, e) && t in TermsOf(es)
    requires forall x <- es :: x in e.terms
    ensures Accepts(g, id, node, t) || (IsMade(t) && t.test.same)
    decreases SizeOf(es), |es|
  {
    var first := es[0];
    if t in Terms(first) {
      if Accepts(g, id, node, first) {
        TermsAccept(g, id, node, first, t);
      } else {
        MadeHas(e.terms, first);
      }
    } else {
      TermsOfAccept(g, id, node, e, es[1..], t);
    }
  }

  lemma {:induction false} ParsedTerms(e: Expr, t: Expr)
    requires Parsed(e) && t in Terms(e)
    ensures Parsed(t)
    decreases Size(e), 0
  {
    if e.And? {
      ParsedTermsOf(e, e.terms, t);
    }
  }

  lemma {:induction false} ParsedTermsOf(e: Expr, es: seq<Expr>, t: Expr)
    requires e.And? && Parsed(e) && t in TermsOf(es)
    requires forall x <- es :: x in e.terms
    ensures Parsed(t)
    decreases SizeOf(es), |es|
  {
    if t in Terms(es[0]) {
      ParsedTerms(es[0], t);
    } else {
      ParsedTermsOf(e, es[1..], t);
    }
  }

  // Whatever the condition, a row of the types asked for that it accepts is
  // among those the filter finds.
  lemma {:induction false} AcceptedIsFound(g: Engine, ix: Indexed, nodes: map<u64, Node>, id: u64, e: Expr)
    requires Lawful(g) && Parsed(e) && id in nodes && HasType(ix.types, nodes[id])
    requires Accepts(g, id, nodes[id], e) && Answered(g, ix, e)
    ensures Found(g, ix, nodes, id, e)
    decreases Size(e)
  {
    hide Passes, FoundByTest, Lawful, IsRange;
    match e
    case One(t) => PassedIsFound(g, ix, nodes, id, t);
    case And(terms) =>
      forall t | t in TermsOf(terms) && Answered(g, ix, t)
        ensures Found(g, ix, nodes, id, t)
      {
        TermsAccept(g, id, nodes[id], e, t);
        ParsedTerms(e, t);
        AcceptedIsFound(g, ix, nodes, id, t);
      }
    case Or(terms) =>
      var t :| t in terms && Accepts(g, id, nodes[id], t);
      PartsAreSmaller(terms, t);
      AcceptedIsFound(g, ix, nodes, id, t);
  }

  // ----- the filter -----

  // The spatial index holds the points of the stored nodes.
  ghost predicate Places(g: Engine, placed: L.Placed, nodes: map<u64, Node>) {
    forall field: string, p: L.Point, id: u64 ::
      (field, p, id) in placed <==> id in nodes && PointIn(g, nodes[id], field) == Some(p)
  }

  ghost predicate Ready(g: Engine, idx: DeclaredIndexes, spatial: L.SpatialIndex)
    reads idx, spatial
  {
    && idx.Valid() && spatial.Valid() && idx.near == g.near && spatial.fl == g.fl
    && Places(g, spatial.placed, idx.nodes)
  }

  // A stored node goes into the spatial index by each of its points, and into
  // the declared indexes.
  method AddPropIndexes(g: Engine, idx: DeclaredIndexes, spatial: L.SpatialIndex, id: u64, node: Node)
    requires Ready(g, idx, spatial) && id !in idx.nodes
    modifies idx, spatial
    ensures Ready(g, idx, spatial) && idx.nodes == old(idx.nodes)[id := node]
    ensures idx.range.Keys == old(idx.range.Keys) && idx.text.Keys == old(idx.text.Keys)
  {
    hide DeclaredIndexes.Valid, L.SpatialIndex.Valid;
    var left := node.props.Keys;
    while left != {}
      invariant left <= node.props.Keys && idx.Valid() && spatial.Valid()
      invariant idx.nodes == old(idx.nodes) && idx.range == old(idx.range) && idx.text == old(idx.text)
      invariant forall f: string, p: L.Point, i: u64 :: (f, p, i) in spatial.placed <==>
        if i == id then f in node.props && f !in left && PointIn(g, node, f) == Some(p)
        else i in idx.nodes && PointIn(g, idx.nodes[i], f) == Some(p)
      decreases left
    {
      var field :| field in left;
      var point := g.pointOf(node.props[field]);
      if point.Some? {
        spatial.Insert(field, point.value, id);
      }
      left := left - {field};
    }
    idx.Insert(id, node);
  }

  // It goes out again by each of its points, which are the only ones it has in
  // their fields.
  method RemovePropIndexes(g: Engine, idx: DeclaredIndexes, spatial: L.SpatialIndex, id: u64, node: Node)
    requires Ready(g, idx, spatial) && id in idx.nodes && idx.nodes[id] == node
    modifies idx, spatial
    ensures Ready(g, idx, spatial) && idx.nodes == old(idx.nodes) - {id}
    ensures idx.range.Keys == old(idx.range.Keys) && idx.text.Keys == old(idx.text.Keys)
  {
    hide DeclaredIndexes.Valid, L.SpatialIndex.Valid, L.Without, L.KeyOf;
    idx.Remove(id, node);
    ghost var range, text := idx.range, idx.text;
    var left := node.props.Keys;
    while left != {}
      invariant left <= node.props.Keys && idx.Valid() && spatial.Valid()
      invariant idx.nodes == old(idx.nodes) - {id} && idx.range == range && idx.text == text
      invariant forall f: string, p: L.Point, i: u64 :: (f, p, i) in spatial.placed <==>
        if i == id then f in left && PointIn(g, node, f) == Some(p)
        else i in idx.nodes && PointIn(g, idx.nodes[i], f) == Some(p)
      decreases left
    {
      var field :| field in left;
      var point := g.pointOf(node.props[field]);
      if point.Some? {
        L.WithoutTheOnlyPoint(g.fl, spatial.placed, field, point.value, id);
        spatial.Remove(field, point.value, id);
      }
      left := left - {field};
    }
  }

  ghost function With(idx: DeclaredIndexes, types: seq<string>): Indexed
    reads idx
  {
    Indexed(types, idx.range.Keys, idx.text.Keys)
  }

  // What the filter of a condition has to be.
  ghost predicate IsFilter(g: Engine, ix: Indexed, nodes: map<u64, Node>, e: Expr, r: Option<set<u64>>) {
    && (r.Some? <==> Answered(g, ix, e))
    && (r.Some? ==> forall id: u64 :: id in r.value <==> Found(g, ix, nodes, id, e))
  }

  method FilterTest(g: Engine, idx: DeclaredIndexes, spatial: L.SpatialIndex, types: seq<string>, t: Test)
    returns (r: Option<set<u64>>)
    requires Ready(g, idx, spatial) && Parsed(One(t))
    ensures IsFilter(g, With(idx, types), idx.nodes, One(t), r)
  {
    hide R.IntervalOf, R.In, R.IsInterval, L.RectsOf, L.AnyBlockMeets, L.Column, L.Row, L.IsBox, IsIn, MayMatch;
    match t
    case Compare(field, pred) =>
      var interval := IntervalOf(g, t);
      if interval.None? {
        return None;
      }
      R.IntervalsAreIntervals(g.near, pred);
      r := idx.RangeCandidates(types, field, interval.value);
    case Matching(field, p) =>
      r := idx.TextCandidates(types, field, p);
    case Within(field, box) =>
      var ids := spatial.Candidates(field, box);
      r := Some(ids);
    case Around(disc) =>
      r := Some(g.around(disc));
    case Walk(_, _, _) =>
      r := StartsOf(g, t);
    case Otherwise(_) =>
      r := None;
  }

  // `and_terms`.
  method AndTerms(e: Expr, out: seq<Expr>) returns (terms: seq<Expr>)
    ensures terms == out + Terms(e)
    decreases Size(e)
  {
    match e
    case And(es) =>
      terms := out;
      var i := 0;
      while i < |es|
        invariant 0 <= i <= |es| && terms + TermsOf(es[i..]) == out + TermsOf(es)
      {
        assert es[i] in es && es[i..][0] == es[i] && es[i..][1..] == es[i + 1..];
        PartsAreSmaller(es, es[i]);
        terms := AndTerms(es[i], terms);
        i := i + 1;
      }
    case _ => terms := out + [e];
  }

  function Intersected(found: Option<set<u64>>, next: set<u64>): Option<set<u64>> {
    match found
    case None => Some(next)
    case Some(ids) => Some(ids * next)
  }

  // One joined interval for each field.
  datatype Bound = Bound(field: string, interval: R.Interval)

  predicate InBounds(g: Engine, ix: Indexed, nodes: map<u64, Node>, id: u64, bounds: seq<Bound>) {
    forall b <- bounds :: InRange(g, ix, nodes, id, b.field, b.interval)
  }

  predicate AreBounds(ix: Indexed, bounds: seq<Bound>) {
    forall b <- bounds :: R.IsInterval(b.interval) && Covers(ix.range, ix.types, b.field)
  }

  // Two intervals of one field hold a node if and only if their intersection does.
  lemma {:induction false} InBoth(
      g: Engine, ix: Indexed, nodes: map<u64, Node>, id: u64, field: string, a: R.Interval, b: R.Interval)
    ensures InRange(g, ix, nodes, id, field, R.Intersect(a, b)) <==>
      InRange(g, ix, nodes, id, field, a) && InRange(g, ix, nodes, id, field, b)
  {
    hide R.In, R.Intersect, R.KeyOf;
    if id in nodes && field in nodes[id].props {
      var key := R.KeyOf(g.near, nodes[id].props[field]);
      if key.Some? {
        R.IntersectionIsExact(a, b, key.value);
      }
    }
  }

  // The interval joins those there are for its field, or is the first.
  method Join(g: Engine, ghost ix: Indexed, ghost nodes: map<u64, Node>, bounds: seq<Bound>, next: Bound)
    returns (joined: seq<Bound>)
    requires AreBounds(ix, bounds) && R.IsInterval(next.interval) && Covers(ix.range, ix.types, next.field)
    ensures AreBounds(ix, joined) && joined != []
    ensures forall id: u64 :: InBounds(g, ix, nodes, id, joined) <==>
      InBounds(g, ix, nodes, id, bounds) && InRange(g, ix, nodes, id, next.field, next.interval)
  {
    hide R.Intersect, R.IsInterval, InRange, Covers;
    var i := 0;
    while i < |bounds| && bounds[i].field != next.field
      invariant 0 <= i <= |bounds|
    {
      i := i + 1;
    }
    if i == |bounds| {
      return bounds + [next];
    }
    var both := Bound(next.field, R.Intersect(bounds[i].interval, next.interval));
    R.IntersectionIsAnInterval(bounds[i].interval, next.interval);
    joined := bounds[i := both];
    forall id: u64
      ensures InBounds(g, ix, nodes, id, joined) <==>
        InBounds(g, ix, nodes, id, bounds) && InRange(g, ix, nodes, id, next.field, next.interval)
    {
      InBoth(g, ix, nodes, id, next.field, bounds[i].interval, next.interval);
      if InBounds(g, ix, nodes, id, joined) {
        assert joined[i] == both && both in joined;
        forall b | b in bounds
          ensures InRange(g, ix, nodes, id, b.field, b.interval)
        {
          var k :| 0 <= k < |bounds| && bounds[k] == b;
          assert joined[k] in joined;
        }
      }
    }
  }

  // ----- conjunctions -----

  // A term that is neither a walk nor joined into a range.
  predicate IsOther(g: Engine, ix: Indexed, t: Expr) {
    !IsWalk(t) && !IsRange(g, ix, t)
  }

  predicate AnyOther(g: Engine, ix: Indexed, ts: seq<Expr>) {
    exists t <- ts :: IsOther(g, ix, t) && Answered(g, ix, t)
  }

  predicate AnyRange(g: Engine, ix: Indexed, ts: seq<Expr>) {
    exists t <- ts :: IsRange(g, ix, t)
  }

  predicate FoundByOthers(g: Engine, ix: Indexed, nodes: map<u64, Node>, id: u64, ts: seq<Expr>) {
    forall t <- ts :: IsOther(g, ix, t) && Answered(g, ix, t) ==> Found(g, ix, nodes, id, t)
  }

  predicate FoundByRanges(g: Engine, ix: Indexed, nodes: map<u64, Node>, id: u64, ts: seq<Expr>) {
    forall t <- ts :: IsRange(g, ix, t) ==> Found(g, ix, nodes, id, t)
  }

  lemma {:induction false} OneMoreTerm(g: Engine, ix: Indexed, nodes: map<u64, Node>, ts: seq<Expr>, t: Expr)
    ensures AnyOther(g, ix, ts + [t]) <==> AnyOther(g, ix, ts) || (IsOther(g, ix, t) && Answered(g, ix, t))
    ensures AnyRange(g, ix, ts + [t]) <==> AnyRange(g, ix, ts) || IsRange(g, ix, t)
    ensures forall id: u64 :: FoundByOthers(g, ix, nodes, id, ts + [t]) <==>
      FoundByOthers(g, ix, nodes, id, ts) && (IsOther(g, ix, t) && Answered(g, ix, t) ==> Found(g, ix, nodes, id, t))
    ensures forall id: u64 :: FoundByRanges(g, ix, nodes, id, ts + [t]) <==>
      FoundByRanges(g, ix, nodes, id, ts) && (IsRange(g, ix, t) ==> Found(g, ix, nodes, id, t))
  {
    hide Answered, Found, IsRange;
    assert t in ts + [t] && forall x <- ts :: x in ts + [t];
  }

  lemma {:induction false} RangeIsFound(g: Engine, ix: Indexed, nodes: map<u64, Node>, id: u64, t: Expr)
    requires IsRange(g, ix, t)
    ensures Found(g, ix, nodes, id, t) <==> InRange(g, ix, nodes, id, t.test.field, IntervalOf(g, t.test).value)
    ensures R.IsInterval(IntervalOf(g, t.test).value)
  {
    R.IntervalsAreIntervals(g.near, t.test.pred);
    hide R.IntervalOf;
  }

  lemma {:induction false} NoWalkBetween(g: Engine, ix: Indexed, walks: seq<Expr>, t: Expr, rest: seq<Expr>)
    requires !IsWalk(t)
    ensures FirstWalk(g, ix, walks + [t] + rest) == FirstWalk(g, ix, walks + rest)
    decreases |walks|
  {
    hide IsWalk, StartsOf;
    if walks == [] {
      assert walks + [t] + rest == [t] + rest && walks + rest == rest;
    } else {
      NoWalkBetween(g, ix, walks[1..], t, rest);
      assert (walks + [t] + rest)[1..] == walks[1..] + [t] + rest && (walks + rest)[1..] == walks[1..] + rest;
    }
  }

  lemma {:induction false} TermIsAnswered(g: Engine, ix: Indexed, t: Expr)
    ensures IsRange(g, ix, t) ==> Answered(g, ix, t) && !IsWalk(t)
    ensures IsWalk(t) ==> (Answered(g, ix, t) <==> StartsOf(g, t.test).Some?)
  {
  }

  // What the terms of a conjunction find together.
  lemma {:induction false} AndIsFilter(g: Engine, ix: Indexed, nodes: map<u64, Node>, e: Expr, r: Option<set<u64>>)
    requires e.And?
    requires var ts := Terms(e);
      if AnyOther(g, ix, ts) || AnyRange(g, ix, ts)
      then r.Some? && forall id: u64 ::
        id in r.value <==> FoundByOthers(g, ix, nodes, id, ts) && FoundByRanges(g, ix, nodes, id, ts)
      else r == if FirstWalk(g, ix, ts).None? then None else StartsOf(g, FirstWalk(g, ix, ts).value.test)
    ensures IsFilter(g, ix, nodes, e, r)
  {
    hide IsRange;
    var ts := TermsOf(e.terms);
    forall t | t in ts
      ensures IsRange(g, ix, t) ==> Answered(g, ix, t) && !IsWalk(t)
      ensures IsWalk(t) ==> (Answered(g, ix, t) <==> StartsOf(g, t.test).Some?)
    {
      TermIsAnswered(g, ix, t);
    }
    if AnyOther(g, ix, ts) || AnyRange(g, ix, ts) {
      var t :| t in ts && !IsWalk(t) && Answered(g, ix, t);
    } else {
      var first := FirstWalk(g, ix, ts);
      if first.Some? {
        assert Answered(g, ix, first.value);
      }
    }
  }

  // What has been found and joined after these terms.
  ghost predicate IsSorted(
      g: Engine, ix: Indexed, nodes: map<u64, Node>, ts: seq<Expr>, found: Option<set<u64>>, bounds: seq<Bound>) {
    && (found.Some? <==> AnyOther(g, ix, ts))
    && (found.Some? ==> forall id: u64 :: id in found.value <==> FoundByOthers(g, ix, nodes, id, ts))
    && AreBounds(ix, bounds) && (bounds != [] <==> AnyRange(g, ix, ts))
    && (forall id: u64 :: InBounds(g, ix, nodes, id, bounds) <==> FoundByRanges(g, ix, nodes, id, ts))
  }

  lemma {:induction false} SortedWalk(
      g: Engine, ix: Indexed, nodes: map<u64, Node>, ts: seq<Expr>, t: Expr, found: Option<set<u64>>, bounds: seq<Bound>)
    requires IsSorted(g, ix, nodes, ts, found, bounds) && IsWalk(t)
    ensures IsSorted(g, ix, nodes, ts + [t], found, bounds)
  {
    TermIsAnswered(g, ix, t);
    hide Found, Answered, IsRange, AnyOther, AnyRange, FoundByOthers, FoundByRanges, InBounds, AreBounds;
    OneMoreTerm(g, ix, nodes, ts, t);
  }

  lemma {:induction false} SortedRange(
      g: Engine, ix: Indexed, nodes: map<u64, Node>, ts: seq<Expr>, t: Expr, found: Option<set<u64>>, bounds: seq<Bound>,
      joined: seq<Bound>)
    requires IsSorted(g, ix, nodes, ts, found, bounds) && IsRange(g, ix, t)
    requires AreBounds(ix, joined) && joined != []
    requires forall id: u64 :: InBounds(g, ix, nodes, id, joined) <==>
      InBounds(g, ix, nodes, id, bounds) && InRange(g, ix, nodes, id, t.test.field, IntervalOf(g, t.test).value)
    ensures IsSorted(g, ix, nodes, ts + [t], found, joined)
  {
    TermIsAnswered(g, ix, t);
    hide Found, Answered, InRange, R.IntervalOf, AnyOther, AnyRange, FoundByOthers, FoundByRanges, InBounds, AreBounds;
    OneMoreTerm(g, ix, nodes, ts, t);
    forall id: u64
      ensures Found(g, ix, nodes, id, t) <==> InRange(g, ix, nodes, id, t.test.field, IntervalOf(g, t.test).value)
    {
      RangeIsFound(g, ix, nodes, id, t);
    }
  }

  lemma {:induction false} SortedOther(
      g: Engine, ix: Indexed, nodes: map<u64, Node>, ts: seq<Expr>, t: Expr, found: Option<set<u64>>, bounds: seq<Bound>,
      next: Option<set<u64>>)
    requires IsSorted(g, ix, nodes, ts, found, bounds) && IsOther(g, ix, t) && IsFilter(g, ix, nodes, t, next)
    ensures IsSorted(g, ix, nodes, ts + [t], if next.Some? then Intersected(found, next.value) else found, bounds)
  {
    hide Found, Answered, IsRange, AnyOther, AnyRange, FoundByOthers, FoundByRanges, InBounds, AreBounds;
    OneMoreTerm(g, ix, nodes, ts, t);
    NoneWithoutOthers(g, ix, nodes, ts);
  }

  // Goes through the terms: ranges are joined and walks put off, and what the
  // others find is intersected.
  method SortTerms(
      g: Engine, idx: DeclaredIndexes, spatial: L.SpatialIndex, types: seq<string>, terms: seq<Expr>, ghost e: Expr)
    returns (found: Option<set<u64>>, bounds: seq<Bound>, walks: seq<Expr>)
    requires Ready(g, idx, spatial) && Parsed(e) && e.And? && terms == Terms(e)
    ensures IsSorted(g, With(idx, types), idx.nodes, terms, found, bounds)
    ensures (forall w <- walks :: IsWalk(w)) && FirstWalk(g, With(idx, types), walks) == FirstWalk(g, With(idx, types), terms)
    decreases Size(e), 0
  {
    hide IsSorted, InRange, R.IsInterval, R.IntervalOf, Parsed, FirstWalk, StartsOf, Ready, IsFilter, InBounds, AreBounds, Terms, Size;
    ghost var ix, nodes := With(idx, types), idx.nodes;
    found, bounds, walks := None, [], [];
    NothingIsSorted(g, ix, nodes);
    assert walks + terms[0..] == terms;
    var i := 0;
    while i < |terms|
      invariant 0 <= i <= |terms| && IsSorted(g, ix, nodes, terms[..i], found, bounds)
      invariant (forall w <- walks :: IsWalk(w)) && FirstWalk(g, ix, walks + terms[i..]) == FirstWalk(g, ix, terms)
    {
      var t := terms[i];
      assert terms[..i + 1] == terms[..i] + [t];
      assert t in terms && walks + terms[i..] == walks + [t] + terms[i + 1..];
      if IsWalk(t) {
        SortedWalk(g, ix, nodes, terms[..i], t, found, bounds);
        walks := walks + [t];
      } else {
        NoWalkBetween(g, ix, walks, t, terms[i + 1..]);
        if t.One? && IntervalOf(g, t.test).Some? && HasRange(idx, types, t.test.field) {
          AreSortedBounds(g, ix, nodes, terms[..i], found, bounds);
          RangeIsFound(g, ix, nodes, 0, t);
          var joined := Join(g, ix, nodes, bounds, Bound(t.test.field, IntervalOf(g, t.test).value));
          SortedRange(g, ix, nodes, terms[..i], t, found, bounds, joined);
          bounds := joined;
        } else {
          ParsedTerms(e, t);
          TermsOfAreSmaller(e, t);
          var next := Filter(g, idx, spatial, types, t);
          SortedOther(g, ix, nodes, terms[..i], t, found, bounds, next);
          if next.Some? {
            found := Intersected(found, next.value);
          }
        }
      }
      i := i + 1;
    }
    assert terms[..i] == terms && walks + terms[i..] == walks;
  }

  lemma {:induction false} NothingIsSorted(g: Engine, ix: Indexed, nodes: map<u64, Node>)
    ensures IsSorted(g, ix, nodes, [], None, [])
  {
  }

  lemma {:induction false} AreSortedBounds(
      g: Engine, ix: Indexed, nodes: map<u64, Node>, ts: seq<Expr>, found: Option<set<u64>>, bounds: seq<Bound>)
    requires IsSorted(g, ix, nodes, ts, found, bounds)
    ensures AreBounds(ix, bounds)
  {
  }

  predicate HasRange(idx: DeclaredIndexes, types: seq<string>, field: string)
    reads idx
  {
    forall ty <- types :: Slot(ty, field) in idx.range
  }

  lemma {:induction false} TermsOfAreSmaller(e: Expr, t: Expr)
    requires e.And? && t in Terms(e)
    ensures Size(t) < Size(e)
  {
  }

  // What was found, within the bounds.
  method Narrow(
      g: Engine, idx: DeclaredIndexes, spatial: L.SpatialIndex, types: seq<string>, found: Option<set<u64>>, bounds: seq<Bound>)
    returns (r: Option<set<u64>>)
    requires Ready(g, idx, spatial) && AreBounds(With(idx, types), bounds)
    ensures r.Some? <==> found.Some? || bounds != []
    ensures r.Some? ==> forall id: u64 :: id in r.value <==>
      (found.Some? ==> id in found.value) && InBounds(g, With(idx, types), idx.nodes, id, bounds)
  {
    hide InRange, R.IsInterval;
    ghost var ix, nodes := With(idx, types), idx.nodes;
    r := found;
    var i := 0;
    while i < |bounds|
      invariant 0 <= i <= |bounds|
      invariant r.Some? <==> found.Some? || i > 0
      invariant r.Some? ==> forall id: u64 ::
        id in r.value <==> (found.Some? ==> id in found.value) && InBounds(g, ix, nodes, id, bounds[..i])
    {
      var b := bounds[i];
      assert b in bounds && bounds[..i + 1] == bounds[..i] + [b];
      var next := idx.RangeCandidates(types, b.field, b.interval);
      forall id: u64
        ensures id in next.value <==> InRange(g, ix, nodes, id, b.field, b.interval)
      {
        InRangeIsThere(g, ix, nodes, id, b);
      }
      r := Intersected(r, next.value);
      i := i + 1;
    }
    assert bounds[..i] == bounds;
  }

  // The first walk that has starts.
  method WalkStarts(g: Engine, ghost ix: Indexed, walks: seq<Expr>) returns (r: Option<set<u64>>)
    requires forall w <- walks :: IsWalk(w)
    ensures r == if FirstWalk(g, ix, walks).None? then None else StartsOf(g, FirstWalk(g, ix, walks).value.test)
  {
    r := None;
    var i := 0;
    while i < |walks|
      invariant 0 <= i <= |walks| && r.None? && FirstWalk(g, ix, walks[i..]) == FirstWalk(g, ix, walks)
    {
      assert walks[i] in walks && walks[i..][1..] == walks[i + 1..];
      r := StartsOf(g, walks[i].test);
      if r.Some? {
        return;
      }
      i := i + 1;
    }
    assert walks[i..] == [];
  }

  method FilterAnd(g: Engine, idx: DeclaredIndexes, spatial: L.SpatialIndex, types: seq<string>, e: Expr)
    returns (r: Option<set<u64>>)
    requires Ready(g, idx, spatial) && Parsed(e) && e.And?
    ensures IsFilter(g, With(idx, types), idx.nodes, e, r)
    decreases Size(e), 1
  {
    hide Found, Answered, Parsed, FirstWalk, IsFilter, AnyOther, AnyRange, FoundByOthers, FoundByRanges, InBounds, AreBounds, Terms;
    var terms := AndTerms(e, []);
    assert [] + Terms(e) == Terms(e);
    ghost var ix, nodes := With(idx, types), idx.nodes;
    var found, bounds, walks := SortTerms(g, idx, spatial, types, terms, e);
    r := Narrow(g, idx, spatial, types, found, bounds);
    if r.None? {
      r := WalkStarts(g, ix, walks);
    }
    NoneWithoutOthers(g, ix, nodes, terms);
    AndIsFilter(g, ix, nodes, e, r);
  }

  lemma {:induction false} InRangeIsThere(g: Engine, ix: Indexed, nodes: map<u64, Node>, id: u64, b: Bound)
    ensures InRange(g, ix, nodes, id, b.field, b.interval) <==>
      id in nodes && exists ty <- ix.types :: IsIn(g.near, b.interval, Slot(ty, b.field), nodes[id])
  {
  }

  lemma {:induction false} NoneWithoutOthers(g: Engine, ix: Indexed, nodes: map<u64, Node>, ts: seq<Expr>)
    ensures !AnyOther(g, ix, ts) ==> forall id: u64 :: FoundByOthers(g, ix, nodes, id, ts)
    ensures !AnyRange(g, ix, ts) ==> forall id: u64 :: FoundByRanges(g, ix, nodes, id, ts)
  {
  }

  // `index_filter`: what the indexes know about a condition.
  method Filter(g: Engine, idx: DeclaredIndexes, spatial: L.SpatialIndex, types: seq<string>, e: Expr)
    returns (r: Option<set<u64>>)
    requires Ready(g, idx, spatial) && Parsed(e)
    ensures IsFilter(g, With(idx, types), idx.nodes, e, r)
    decreases Size(e), 2
  {
    hide FoundByTest, IsRange;
    match e
    case One(t) => r := FilterTest(g, idx, spatial, types, t);
    case And(_) => r := FilterAnd(g, idx, spatial, types, e);
    case Or(terms) =>
      ghost var ix, nodes := With(idx, types), idx.nodes;
      var found: set<u64> := {};
      var i := 0;
      while i < |terms|
        invariant 0 <= i <= |terms|
        invariant forall t <- terms[..i] :: Answered(g, ix, t)
        invariant forall id: u64 :: id in found <==> exists t <- terms[..i] :: Found(g, ix, nodes, id, t)
      {
        assert terms[i] in terms && terms[..i + 1] == terms[..i] + [terms[i]];
        PartsAreSmaller(terms, terms[i]);
        var next := Filter(g, idx, spatial, types, terms[i]);
        if next.None? {
          return None;
        }
        forall id: u64
          ensures id in found + next.value <==> exists t <- terms[..i + 1] :: Found(g, ix, nodes, id, t)
        {
          FoundInMore(g, ix, nodes, id, terms[..i], terms[i]);
        }
        found := found + next.value;
        i := i + 1;
      }
      assert terms[..i] == terms;
      r := Some(found);
  }

  lemma {:induction false} FoundInMore(
      g: Engine, ix: Indexed, nodes: map<u64, Node>, id: u64, ts: seq<Expr>, t: Expr)
    ensures (exists x <- ts + [t] :: Found(g, ix, nodes, id, x)) <==>
      (exists x <- ts :: Found(g, ix, nodes, id, x)) || Found(g, ix, nodes, id, t)
  {
    hide Found;
    assert t in ts + [t] && forall x <- ts :: x in ts + [t];
  }

  // ----- the rows of a selection -----

  // What a selection asks for, with no index: every node of the types that the
  // condition accepts.
  function Selected(g: Engine, nodes: map<u64, Node>, types: seq<string>, condition: Option<Expr>): set<u64> {
    set id | id in nodes && HasType(types, nodes[id]) && (condition.Some? ==> Accepts(g, id, nodes[id], condition.value))
  }

  // `candidates` and `retain_matches`: the rows come from the filter when it
  // finds any and from a scan of the types when not, and each is tested. The
  // indexes never change the answer.
  method Select(
      g: Engine, idx: DeclaredIndexes, spatial: L.SpatialIndex, stored: map<u64, Node>, types: seq<string>,
      condition: Option<Expr>)
    returns (rows: set<u64>)
    requires Lawful(g) && Ready(g, idx, spatial) && stored == idx.nodes
    requires condition.Some? ==> Parsed(condition.value)
    ensures rows == Selected(g, stored, types, condition)
  {
    hide Found, Answered, Accepts, Lawful, Parsed, HasType, Ready;
    var found: Option<set<u64>> := None;
    if condition.Some? {
      found := Filter(g, idx, spatial, types, condition.value);
      forall id | id in stored && HasType(types, stored[id]) && Accepts(g, id, stored[id], condition.value) && found.Some?
        ensures id in found.value
      {
        AcceptedIsFound(g, With(idx, types), stored, id, condition.value);
      }
    }
    var ids := if found.Some? then set id | id in found.value && id in stored && HasType(types, stored[id])
               else set id | id in stored && HasType(types, stored[id]);
    rows := set id | id in ids && (condition.Some? ==> Accepts(g, id, stored[id], condition.value));
  }
}
