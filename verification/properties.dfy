/**
 * What `extract_faces` promises about one representation (the faces it
 * yields, where it stops) and about the walk as a whole (order, isolation
 * of failures, what is skipped).
 */
module ExtractionProperties {
  import opened Options
  import opened Geometry
  import opened Ifc
  import opened Extractor

  /** An index below a third of the vertex buffer's length names a whole vertex. */
  lemma IndexNamesWholeVertex(index: nat, n: nat)
    requires index < n / 3
    ensures 3 * index + 2 < n
  {
  }

  /** All three entries of index triple `k` of the flat index buffer name a vertex of the flat vertex buffer. */
  predicate FlatTripleInRange(verts: seq<real>, indices: seq<nat>, k: nat)
    requires 3 * k + 2 < |indices|
  {
    indices[3 * k] < |verts| / 3 && indices[3 * k + 1] < |verts| / 3 && indices[3 * k + 2] < |verts| / 3
  }

  /** Face `k` read off the flat buffers: `[P(indices[3k]), P(indices[3k+1]), P(indices[3k+2])]`. */
  function FlatFace(verts: seq<real>, indices: seq<nat>, k: nat): Face
    requires 3 * k + 2 < |indices|
    requires FlatTripleInRange(verts, indices, k)
  {
    IndexNamesWholeVertex(indices[3 * k], |verts|);
    IndexNamesWholeVertex(indices[3 * k + 1], |verts|);
    IndexNamesWholeVertex(indices[3 * k + 2], |verts|);
    Triple(RowAt(verts, indices[3 * k]), RowAt(verts, indices[3 * k + 1]), RowAt(verts, indices[3 * k + 2]))
  }

  /** The index that raises in a flat triple that names a missing vertex: the first such, left to right. */
  function FlatFirstOutOfRange(verts: seq<real>, indices: seq<nat>, k: nat): nat
    requires 3 * k + 2 < |indices|
  {
    if indices[3 * k] >= |verts| / 3 then indices[3 * k]
    else if indices[3 * k + 1] >= |verts| / 3 then indices[3 * k + 1]
    else indices[3 * k + 2]
  }

  /** With both buffers whole triples, a tessellated item is the dereference of the reshaped buffers. */
  lemma ItemUnfolds(tess: Tessellator, product: nat, rep: ShapeRepresentation, verts: seq<real>, indices: seq<nat>)
    requires IsTessellated(rep) && tess(rep) == Shape(verts, indices)
    requires |verts| % 3 == 0 && |indices| % 3 == 0
    ensures var d := Dereference(Group(verts), Group(indices));
      ProcessItem(tess, product, rep) == Extraction(d.faces, Report(product, d.error), [rep])
  {
  }

  /** Triple `k` of the reshaped buffers, seen through the flat buffers. */
  lemma TripleIsFlat(verts: seq<real>, indices: seq<nat>, k: nat)
    requires |verts| % 3 == 0 && |indices| % 3 == 0
    requires k < |indices| / 3
    ensures 3 * k + 2 < |indices|
    ensures InRange(Group(verts), Group(indices)[k]) <==> FlatTripleInRange(verts, indices, k)
    ensures InRange(Group(verts), Group(indices)[k]) ==>
      Resolve(Group(verts), Group(indices)[k]) == FlatFace(verts, indices, k)
    ensures !InRange(Group(verts), Group(indices)[k]) ==>
      FirstOutOfRange(Group(verts), Group(indices)[k]) == FlatFirstOutOfRange(verts, indices, k)
  {
    var points := Group(verts);
    assert Group(indices)[k] == RowAt(indices, k);
    if FlatTripleInRange(verts, indices, k) {
      assert points[indices[3 * k]] == RowAt(verts, indices[3 * k]);
      assert points[indices[3 * k + 1]] == RowAt(verts, indices[3 * k + 1]);
      assert points[indices[3 * k + 2]] == RowAt(verts, indices[3 * k + 2]);
    }
  }

  /**
   * A tessellated representation whose buffers are well formed and whose
   * indices are all in range yields exactly `|indices| / 3` faces, face `k`
   * built from index triple `k`, and no diagnostic.
   */
  lemma ItemComplete(tess: Tessellator, product: nat, rep: ShapeRepresentation, verts: seq<real>, indices: seq<nat>)
    requires IsTessellated(rep) && tess(rep) == Shape(verts, indices)
    requires |verts| % 3 == 0 && |indices| % 3 == 0
    requires forall j :: 0 <= j < |indices| ==> indices[j] < |verts| / 3
    ensures var r := ProcessItem(tess, product, rep);
      && r.diagnostics == []
      && r.requests == [rep]
      && |r.faces| == |indices| / 3
      && forall k :: 0 <= k < |r.faces| ==>
           3 * k + 2 < |indices| && FlatTripleInRange(verts, indices, k) && r.faces[k] == FlatFace(verts, indices, k)
  {
    var points, triples := Group(verts), Group(indices);
    forall k | 0 <= k < |triples|
      ensures InRange(points, triples[k])
    {
      TripleIsFlat(verts, indices, k);
    }
    DereferenceSucceedsIff(points, triples);
    ItemUnfolds(tess, product, rep, verts, indices);
    var d := Dereference(points, triples);
    forall k | 0 <= k < |d.faces|
      ensures 3 * k + 2 < |indices| && FlatTripleInRange(verts, indices, k) && d.faces[k] == FlatFace(verts, indices, k)
    {
      TripleIsFlat(verts, indices, k);
    }
  }

  /**
   * If index triple `k` is the first to name a missing vertex, the faces of
   * triples `0 .. k-1` stay in the output, the later triples are skipped,
   * and exactly one diagnostic names the product and the offending index.
   */
  lemma ItemStopsAtBadIndex(tess: Tessellator, product: nat, rep: ShapeRepresentation, verts: seq<real>, indices: seq<nat>, k: nat)
    requires IsTessellated(rep) && tess(rep) == Shape(verts, indices)
    requires |verts| % 3 == 0 && |indices| % 3 == 0
    requires 3 * k + 2 < |indices|
    requires forall m :: 0 <= m < k ==> FlatTripleInRange(verts, indices, m)
    requires !FlatTripleInRange(verts, indices, k)
    ensures var r := ProcessItem(tess, product, rep);
      && |r.faces| == k
      && (forall m :: 0 <= m < k ==> r.faces[m] == FlatFace(verts, indices, m))
      && r.diagnostics == [Diagnostic(product, IndexOutOfRange(FlatFirstOutOfRange(verts, indices, k), |verts| / 3))]
  {
    var points, triples := Group(verts), Group(indices);
    ItemUnfolds(tess, product, rep, verts, indices);
    var d := Dereference(points, triples);
    TripleIsFlat(verts, indices, k);
    forall m | 0 <= m < k
      ensures InRange(points, triples[m])
    {
      TripleIsFlat(verts, indices, m);
    }
    assert d.error.Some? by {
      DereferenceSucceedsIff(points, triples);
    }
    assert |d.faces| == k;
    forall m | 0 <= m < k
      ensures d.faces[m] == FlatFace(verts, indices, m)
    {
      TripleIsFlat(verts, indices, m);
    }
  }

  /**
   * A tessellated representation whose tessellation raises, or whose vertex
   * or index buffer is not a whole number of triples, yields no face and
   * exactly one diagnostic, naming the product and the first failure.
   */
  lemma ItemFailsWhole(tess: Tessellator, product: nat, rep: ShapeRepresentation)
    requires IsTessellated(rep)
    requires tess(rep).ShapeError? || |tess(rep).verts| % 3 != 0 || |tess(rep).indices| % 3 != 0
    ensures var r := ProcessItem(tess, product, rep);
      && r.faces == []
      && r.requests == [rep]
      && r.diagnostics == [Diagnostic(product,
           if tess(rep).ShapeError? then ShapeFailed
           else if |tess(rep).verts| % 3 != 0 then VertexBufferNotTriples(|tess(rep).verts|)
           else IndexBufferNotTriples(|tess(rep).indices|))]
  {
  }

  /** `Then` is associative, so concatenating extractions needs no brackets. */
  lemma ThenAssociative(x: Extraction, y: Extraction, z: Extraction)
    ensures x.Then(y).Then(z) == x.Then(y.Then(z))
  {
    AppendAssociative(x.faces, y.faces, z.faces);
    AppendAssociative(x.diagnostics, y.diagnostics, z.diagnostics);
    AppendAssociative(x.requests, y.requests, z.requests);
  }

  lemma SplitAt<T>(s: seq<T>, i: nat)
    requires i < |s|
    ensures s == s[..i] + ([s[i]] + s[i + 1..])
  {
  }

  lemma AppendAssociative<T>(a: seq<T>, b: seq<T>, c: seq<T>)
    ensures (a + b) + c == a + (b + c)
  {
  }

  /** `Nothing` is the unit of `Then`. */
  lemma ThenNothing(x: Extraction)
    ensures x.Then(Nothing) == x && Nothing.Then(x) == x
  {
    assert x.faces + [] == x.faces && x.diagnostics + [] == x.diagnostics && x.requests + [] == x.requests;
  }

  /** Processing `rep` in front of `reps` is processing `rep`, then `reps`. */
  lemma ProcessRepsCons(tess: Tessellator, product: nat, rep: ShapeRepresentation, reps: seq<ShapeRepresentation>)
    ensures ProcessReps(tess, product, [rep] + reps) == ProcessItem(tess, product, rep).Then(ProcessReps(tess, product, reps))
  {
    var s := [rep] + reps;
    assert s[0] == rep && s[1..] == reps;
  }

  /** Processing the representations of `a ++ b` is processing `a`, then `b`. */
  lemma {:induction false} ProcessRepsAppend(tess: Tessellator, product: nat, a: seq<ShapeRepresentation>, b: seq<ShapeRepresentation>)
    ensures ProcessReps(tess, product, a + b) == ProcessReps(tess, product, a).Then(ProcessReps(tess, product, b))
    decreases |a|
  {
    if |a| == 0 {
      assert a + b == b;
      ThenNothing(ProcessReps(tess, product, b));
    } else {
      assert a + b == [a[0]] + (a[1..] + b);
      assert a == [a[0]] + a[1..];
      ProcessRepsCons(tess, product, a[0], a[1..] + b);
      ProcessRepsAppend(tess, product, a[1..], b);
      ProcessRepsCons(tess, product, a[0], a[1..]);
      ThenAssociative(ProcessItem(tess, product, a[0]), ProcessReps(tess, product, a[1..]), ProcessReps(tess, product, b));
    }
  }

  /** Walking `e` in front of `graph` is processing `e`, then walking `graph`. */
  lemma ExtractFacesCons(tess: Tessellator, e: Entity, graph: seq<Entity>)
    ensures ExtractFaces(tess, [e] + graph) == ProcessEntity(tess, e).Then(ExtractFaces(tess, graph))
  {
    var s := [e] + graph;
    assert s[0] == e && s[1..] == graph;
  }

  /**
   * The walk is a homomorphism from entity sequences to extractions: the
   * output for `g1 ++ g2` is the output for `g1` followed by that for `g2`.
   */
  lemma {:induction false} ExtractFacesAppend(tess: Tessellator, g1: seq<Entity>, g2: seq<Entity>)
    ensures ExtractFaces(tess, g1 + g2) == ExtractFaces(tess, g1).Then(ExtractFaces(tess, g2))
    decreases |g1|
  {
    if |g1| == 0 {
      assert g1 + g2 == g2;
      ThenNothing(ExtractFaces(tess, g2));
    } else {
      assert g1 + g2 == [g1[0]] + (g1[1..] + g2);
      assert g1 == [g1[0]] + g1[1..];
      ExtractFacesCons(tess, g1[0], g1[1..] + g2);
      ExtractFacesAppend(tess, g1[1..], g2);
      ExtractFacesCons(tess, g1[0], g1[1..]);
      ThenAssociative(ProcessEntity(tess, g1[0]), ExtractFaces(tess, g1[1..]), ExtractFaces(tess, g2));
    }
  }

  /**
   * Isolation: whatever entity `i` does, including failing halfway, the
   * faces and diagnostics of the entities before and after it are exactly
   * what they would be on their own, and in the same order.
   */
  lemma ExtractFacesSplit(tess: Tessellator, graph: seq<Entity>, i: nat)
    requires i < |graph|
    ensures ExtractFaces(tess, graph)
      == ExtractFaces(tess, graph[..i]).Then(ProcessEntity(tess, graph[i])).Then(ExtractFaces(tess, graph[i + 1..]))
  {
    var before, after := graph[..i], graph[i + 1..];
    var x, y, z := ExtractFaces(tess, before), ProcessEntity(tess, graph[i]), ExtractFaces(tess, after);
    SplitAt(graph, i);
    ExtractFacesAppend(tess, before, [graph[i]] + after);
    assert ExtractFaces(tess, graph) == x.Then(ExtractFaces(tess, [graph[i]] + after));
    ExtractFacesCons(tess, graph[i], after);
    assert ExtractFaces(tess, graph) == x.Then(y.Then(z));
    ThenAssociative(x, y, z);
  }

  /** The entities `by_type("IfcProduct")` yields, in order. */
  function Products(graph: seq<Entity>): (ps: seq<Entity>)
    ensures |ps| <= |graph|
    ensures forall e :: e in ps ==> e in graph && e.isProduct
  {
    if |graph| == 0 then []
    else if graph[0].isProduct then [graph[0]] + Products(graph[1..])
    else Products(graph[1..])
  }

  /** Only products are visited: removing every non-product changes nothing. */
  lemma {:induction false} OnlyProductsMatter(tess: Tessellator, graph: seq<Entity>)
    ensures ExtractFaces(tess, graph) == ExtractFaces(tess, Products(graph))
    decreases |graph|
  {
    if |graph| > 0 {
      var rest := ExtractFaces(tess, graph[1..]);
      OnlyProductsMatter(tess, graph[1..]);
      assert ExtractFaces(tess, graph) == ProcessEntity(tess, graph[0]).Then(rest);
      if graph[0].isProduct {
        assert Products(graph) == [graph[0]] + Products(graph[1..]);
        ExtractFacesCons(tess, graph[0], Products(graph[1..]));
      } else {
        assert Products(graph) == Products(graph[1..]);
        ThenNothing(rest);
      }
    }
  }

  /** A model in which no entity carries a `Representation` yields no face, no diagnostic and no tessellator call. */
  lemma {:induction false} NoRepresentationNoFaces(tess: Tessellator, graph: seq<Entity>)
    requires forall i :: 0 <= i < |graph| ==> graph[i].representation.None?
    ensures ExtractFaces(tess, graph) == Nothing
    decreases |graph|
  {
    if |graph| > 0 {
      NoRepresentationNoFaces(tess, graph[1..]);
    }
  }
}
