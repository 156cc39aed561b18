/**
 * `extract_faces` (app.py:6-28) as pure functions: walk the products,
 * keep the representations tagged "Tessellation", tessellate each one,
 * regroup its buffers into triples and dereference each index triple into
 * a face. A failing representation is reported against its product and
 * the walk goes on; faces it produced before failing stay in the output.
 */
module Extractor {
  import opened Options
  import opened Geometry
  import opened Ifc

  /** Why one representation stopped contributing faces. */
  datatype ExtractError =
    | ShapeFailed                                // create_shape raised (app.py:18)
    | VertexBufferNotTriples(length: nat)        // verts.reshape((-1, 3)) raised (app.py:19)
    | IndexBufferNotTriples(length: nat)         // edges.reshape((-1, 3)) raised (app.py:20)
    | IndexOutOfRange(index: nat, size: nat)     // verts[index] raised (app.py:22)

  /** One `st.error` message: the product it names and the failure it reports (app.py:26). */
  datatype Diagnostic = Diagnostic(product: nat, error: ExtractError)

  /** The faces one representation appended, and the failure that stopped it, if any. */
  datatype ItemResult = ItemResult(faces: seq<Face>, error: Option<ExtractError>)

  /**
   * Everything a walk produces: the faces in order, the diagnostics in
   * order, and the representations handed to the tessellator in order.
   */
  datatype Extraction = Extraction(faces: seq<Face>, diagnostics: seq<Diagnostic>, requests: seq<ShapeRepresentation>)
  {
    /** This walk followed by `next`: every output is concatenated, nothing reordered. */
    function Then(next: Extraction): Extraction
    {
      Extraction(faces + next.faces, diagnostics + next.diagnostics, requests + next.requests)
    }
  }

  const Nothing: Extraction := Extraction([], [], [])

  /** All three indices of `t` name a vertex that exists. */
  predicate InRange(points: seq<Point>, t: Triple<nat>)
  {
    t.first < |points| && t.second < |points| && t.third < |points|
  }

  /** The face an in-range index triple names: its three vertices, in order (app.py:22). */
  function Resolve(points: seq<Point>, t: Triple<nat>): Face
    requires InRange(points, t)
  {
    Triple(points[t.first], points[t.second], points[t.third])
  }

  /** The index whose lookup raises: the first out-of-range one, left to right. */
  function FirstOutOfRange(points: seq<Point>, t: Triple<nat>): (index: nat)
    requires !InRange(points, t)
    ensures index >= |points|
    ensures index == t.first || index == t.second || index == t.third
    ensures index == t.first || (t.first < |points| && (index == t.second || t.second < |points|))
  {
    if t.first >= |points| then t.first
    else if t.second >= |points| then t.second
    else t.third
  }

  /**
   * The index loop (app.py:21-23): one face per triple, in
   * order, until a triple names a missing vertex. Faces of the triples
   * before that one are kept.
   */
  function Dereference(points: seq<Point>, triples: seq<Triple<nat>>): (r: ItemResult)
    ensures |r.faces| <= |triples|
    ensures forall k :: 0 <= k < |r.faces| ==>
      InRange(points, triples[k]) && r.faces[k] == Resolve(points, triples[k])
    ensures r.error.None? <==> |r.faces| == |triples|
    ensures r.error.Some? ==>
      && |r.faces| < |triples|
      && !InRange(points, triples[|r.faces|])
      && r.error.value == IndexOutOfRange(FirstOutOfRange(points, triples[|r.faces|]), |points|)
    decreases |triples|
  {
    if |triples| == 0 then ItemResult([], None)
    else if !InRange(points, triples[0]) then
      ItemResult([], Some(IndexOutOfRange(FirstOutOfRange(points, triples[0]), |points|)))
    else
      var rest := Dereference(points, triples[1..]);
      ItemResult([Resolve(points, triples[0])] + rest.faces, rest.error)
  }

  /** A triple sequence dereferences without error exactly when every triple is in range. */
  lemma DereferenceSucceedsIff(points: seq<Point>, triples: seq<Triple<nat>>)
    ensures Dereference(points, triples).error.None? <==>
      forall k :: 0 <= k < |triples| ==> InRange(points, triples[k])
  {
    var r := Dereference(points, triples);
    if r.error.Some? {
      assert !InRange(points, triples[|r.faces|]);
    }
  }

  /**
   * The body of the `try` for one tessellated representation
   * (app.py:19-23): reshape the vertex buffer, then the index buffer,
   * then dereference.
   */
  function TessellatedFaces(verts: seq<real>, indices: seq<nat>): (r: ItemResult)
    ensures |verts| % 3 != 0 ==> r == ItemResult([], Some(VertexBufferNotTriples(|verts|)))
    ensures |verts| % 3 == 0 && |indices| % 3 != 0 ==>
      r == ItemResult([], Some(IndexBufferNotTriples(|indices|)))
    ensures |r.faces| <= |indices| / 3
  {
    match Reshape3(verts)
    case None => ItemResult([], Some(VertexBufferNotTriples(|verts|)))
    case Some(points) =>
      match Reshape3(indices)
      case None => ItemResult([], Some(IndexBufferNotTriples(|indices|)))
      case Some(triples) => Dereference(points, triples)
  }

  /** The `st.error` calls one representation makes: none, or one naming `product`. */
  function Report(product: nat, error: Option<ExtractError>): (ds: seq<Diagnostic>)
    ensures |ds| <= 1
    ensures error.None? <==> ds == []
    ensures error.Some? ==> ds == [Diagnostic(product, error.value)]
  {
    match error
    case None => []
    case Some(e) => [Diagnostic(product, e)]
  }

  /**
   * One representation of one product (app.py:15-27). Anything not tagged
   * "Tessellation" is skipped without reaching the tessellator; otherwise
   * it is tessellated once and any failure becomes exactly one diagnostic.
   */
  function ProcessItem(tess: Tessellator, product: nat, rep: ShapeRepresentation): (r: Extraction)
    ensures !IsTessellated(rep) ==> r == Nothing
    ensures r.requests == (if IsTessellated(rep) then [rep] else [])
    ensures |r.diagnostics| <= 1
    ensures forall k :: 0 <= k < |r.diagnostics| ==> r.diagnostics[k].product == product
  {
    if !IsTessellated(rep) then Nothing
    else
      var item := match tess(rep)
        case ShapeError => ItemResult([], Some(ShapeFailed))
        case Shape(verts, indices) => TessellatedFaces(verts, indices);
      Extraction(item.faces, Report(product, item.error), [rep])
  }

  /** The tessellated representations among `reps`, in order. */
  function Tessellated(reps: seq<ShapeRepresentation>): (ts: seq<ShapeRepresentation>)
    ensures |ts| <= |reps|
    ensures forall k :: 0 <= k < |ts| ==> IsTessellated(ts[k])
  {
    if |reps| == 0 then []
    else if IsTessellated(reps[0]) then [reps[0]] + Tessellated(reps[1..])
    else Tessellated(reps[1..])
  }

  lemma {:induction false} TessellatedAppend(a: seq<ShapeRepresentation>, b: seq<ShapeRepresentation>)
    ensures Tessellated(a + b) == Tessellated(a) + Tessellated(b)
    decreases |a|
  {
    if |a| > 0 {
      assert (a + b)[1..] == a[1..] + b;
      TessellatedAppend(a[1..], b);
    } else {
      assert a + b == b;
    }
  }

  /** The inner loop over one product's shape representations (app.py:14-27). */
  function ProcessReps(tess: Tessellator, product: nat, reps: seq<ShapeRepresentation>): Extraction
    decreases |reps|
  {
    if |reps| == 0 then Nothing
    else ProcessItem(tess, product, reps[0]).Then(ProcessReps(tess, product, reps[1..]))
  }

  /**
   * Of one product's representations, exactly the tessellated ones reach
   * the tessellator, in order; each yields at most one diagnostic, and
   * every diagnostic names the product.
   */
  lemma {:induction false} ProcessRepsRequests(tess: Tessellator, product: nat, reps: seq<ShapeRepresentation>)
    ensures var r := ProcessReps(tess, product, reps);
      && r.requests == Tessellated(reps)
      && |r.diagnostics| <= |r.requests|
      && forall k :: 0 <= k < |r.diagnostics| ==> r.diagnostics[k].product == product
    decreases |reps|
  {
    if |reps| > 0 {
      var head, tail := ProcessItem(tess, product, reps[0]), ProcessReps(tess, product, reps[1..]);
      ProcessRepsRequests(tess, product, reps[1..]);
      assert ProcessReps(tess, product, reps) == head.Then(tail);
      assert Tessellated(reps) == head.requests + Tessellated(reps[1..]);
      forall k | 0 <= k < |head.diagnostics| + |tail.diagnostics|
        ensures head.Then(tail).diagnostics[k].product == product
      {
        if k < |head.diagnostics| {
          assert head.Then(tail).diagnostics[k] == head.diagnostics[k];
        } else {
          assert head.Then(tail).diagnostics[k] == tail.diagnostics[k - |head.diagnostics|];
        }
      }
    }
  }

  /** The representations of `e` that the walk looks at: none unless it is a product with a `Representation`. */
  function RepresentationsOf(e: Entity): seq<ShapeRepresentation>
  {
    if e.isProduct && e.representation.Some? then e.representation.value else []
  }

  /** One step of the outer loop (app.py:11-27). */
  function ProcessEntity(tess: Tessellator, e: Entity): Extraction
  {
    if e.isProduct && e.representation.Some? then ProcessReps(tess, e.id, e.representation.value)
    else Nothing
  }

  /** Every representation the walk looks at, product by product. */
  function AllRepresentations(graph: seq<Entity>): seq<ShapeRepresentation>
  {
    if |graph| == 0 then [] else RepresentationsOf(graph[0]) + AllRepresentations(graph[1..])
  }

  /** The ids of products that carry a `Representation`: the only ones a diagnostic can name. */
  function ProductIds(graph: seq<Entity>): set<nat>
  {
    set i | 0 <= i < |graph| && graph[i].isProduct && graph[i].representation.Some? :: graph[i].id
  }

  /**
   * `extract_faces` (app.py:6-28): the products' extractions concatenated
   * in iteration order.
   */
  function ExtractFaces(tess: Tessellator, graph: seq<Entity>): Extraction
    decreases |graph|
  {
    if |graph| == 0 then Nothing
    else ProcessEntity(tess, graph[0]).Then(ExtractFaces(tess, graph[1..]))
  }

  /**
   * Only tessellated representations of products reach the tessellator,
   * each exactly once and in walk order; each yields at most one diagnostic.
   */
  lemma {:induction false} ExtractFacesRequests(tess: Tessellator, graph: seq<Entity>)
    ensures ExtractFaces(tess, graph).requests == Tessellated(AllRepresentations(graph))
    ensures |ExtractFaces(tess, graph).diagnostics| <= |ExtractFaces(tess, graph).requests|
    decreases |graph|
  {
    if |graph| > 0 {
      ExtractFacesRequests(tess, graph[1..]);
      if graph[0].isProduct && graph[0].representation.Some? {
        ProcessRepsRequests(tess, graph[0].id, graph[0].representation.value);
      }
      TessellatedAppend(RepresentationsOf(graph[0]), AllRepresentations(graph[1..]));
    }
  }

  /** Every diagnostic names a product of the model that carries a `Representation`. */
  lemma {:induction false} DiagnosticsNameProducts(tess: Tessellator, graph: seq<Entity>)
    ensures forall k :: 0 <= k < |ExtractFaces(tess, graph).diagnostics| ==>
      ExtractFaces(tess, graph).diagnostics[k].product in ProductIds(graph)
    decreases |graph|
  {
    if |graph| > 0 {
      DiagnosticsNameProducts(tess, graph[1..]);
      if graph[0].isProduct && graph[0].representation.Some? {
        ProcessRepsRequests(tess, graph[0].id, graph[0].representation.value);
      }
      var head := ProcessEntity(tess, graph[0]);
      var tail := ExtractFaces(tess, graph[1..]);
      forall k | 0 <= k < |head.diagnostics| + |tail.diagnostics|
        ensures head.Then(tail).diagnostics[k].product in ProductIds(graph)
      {
        if k < |head.diagnostics| {
          assert head.Then(tail).diagnostics[k] == head.diagnostics[k];
        } else {
          var id := tail.diagnostics[k - |head.diagnostics|].product;
          assert head.Then(tail).diagnostics[k].product == id;
          var i :| 0 <= i < |graph[1..]| && graph[1..][i].isProduct && graph[1..][i].representation.Some? && graph[1..][i].id == id;
          assert graph[i + 1] == graph[1..][i];
        }
      }
    }
  }
}
