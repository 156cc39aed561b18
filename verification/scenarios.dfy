/**
 * Concrete models: a single triangle, a failing product beside a good
 * one, a representation that fails on its second triangle, and one that
 * is not tagged for tessellation.
 */
module Scenarios {
  import opened Options
  import opened Geometry
  import opened Ifc
  import opened Extractor
  import opened ExtractionProperties

  const Origin: Point := Triple(0.0, 0.0, 0.0)
  const UnitX: Point := Triple(1.0, 0.0, 0.0)
  const UnitY: Point := Triple(0.0, 1.0, 0.0)
  const Triangle: Face := Triple(Origin, UnitX, UnitY)

  /** Vertices (0,0,0), (1,0,0), (0,1,0) as a flat buffer. */
  const TriangleVerts: seq<real> := [0.0, 0.0, 0.0, 1.0, 0.0, 0.0, 0.0, 1.0, 0.0]

  function TessellatedRep(id: nat): ShapeRepresentation
  {
    ShapeRepresentation(id, Some(TessellationTag))
  }

  /** Representation 1 fails to tessellate, 2 is one triangle, 3 is one good triangle then an index past the end. */
  function Kernel(rep: ShapeRepresentation): Tessellation
  {
    if rep.id == 1 then ShapeError
    else if rep.id == 2 then Shape(TriangleVerts, [0, 1, 2])
    else Shape(TriangleVerts, [0, 1, 2, 0, 1, 7])
  }

  lemma TriangleVertsGroup()
    ensures Group(TriangleVerts) == [Origin, UnitX, UnitY]
  {
    var g := Group(TriangleVerts);
    assert g[0] == RowAt(TriangleVerts, 0) && g[1] == RowAt(TriangleVerts, 1) && g[2] == RowAt(TriangleVerts, 2);
  }

  /** A product with exactly one representation yields what that representation yields. */
  lemma OneProductOneRep(tess: Tessellator, id: nat, rep: ShapeRepresentation)
    ensures ExtractFaces(tess, [Entity(id, true, Some([rep]))]) == ProcessItem(tess, id, rep)
  {
    var e := Entity(id, true, Some([rep]));
    ExtractFacesCons(tess, e, []);
    assert [e] + [] == [e];
    ProcessRepsCons(tess, id, rep, []);
    assert [rep] + [] == [rep];
    ThenNothing(ProcessItem(tess, id, rep));
    ThenNothing(ProcessEntity(tess, e));
  }

  lemma TriangleItem(product: nat)
    ensures ProcessItem(Kernel, product, TessellatedRep(2)) == Extraction([Triangle], [], [TessellatedRep(2)])
  {
    TriangleVertsGroup();
    var triples := Group([0, 1, 2]);
    assert triples[0] == RowAt([0, 1, 2], 0);
    assert triples == [Triple(0, 1, 2)];
    ItemUnfolds(Kernel, product, TessellatedRep(2), TriangleVerts, [0, 1, 2]);
    var d := Dereference([Origin, UnitX, UnitY], triples);
    assert d.faces[0] == Triangle;
  }

  /** One tessellated triangle yields exactly that triangle and nothing else. */
  lemma SingleTriangle()
    ensures var r := ExtractFaces(Kernel, [Entity(10, true, Some([TessellatedRep(2)]))]);
      r.faces == [Triangle] && r.diagnostics == []
  {
    OneProductOneRep(Kernel, 10, TessellatedRep(2));
    TriangleItem(10);
  }

  /** Product 20 fails, product 21 succeeds: 21's triangle is kept and one diagnostic names 20. */
  lemma FailureDoesNotAbort()
    ensures var r := ExtractFaces(Kernel, [Entity(20, true, Some([TessellatedRep(1)])), Entity(21, true, Some([TessellatedRep(2)]))]);
      r.faces == [Triangle] && r.diagnostics == [Diagnostic(20, ShapeFailed)]
  {
    var a, b := Entity(20, true, Some([TessellatedRep(1)])), Entity(21, true, Some([TessellatedRep(2)]));
    assert [a, b] == [a] + [b];
    ExtractFacesAppend(Kernel, [a], [b]);
    OneProductOneRep(Kernel, 20, TessellatedRep(1));
    OneProductOneRep(Kernel, 21, TessellatedRep(2));
    ItemFailsWhole(Kernel, 20, TessellatedRep(1));
    TriangleItem(21);
  }

  /** Index 7 names no vertex: the first triangle stays, the error reports index 7 against 3 vertices. */
  lemma PartialRepresentation()
    ensures var r := ExtractFaces(Kernel, [Entity(30, true, Some([TessellatedRep(3)]))]);
      r.faces == [Triangle] && r.diagnostics == [Diagnostic(30, IndexOutOfRange(7, 3))]
  {
    OneProductOneRep(Kernel, 30, TessellatedRep(3));
    var indices: seq<nat> := [0, 1, 2, 0, 1, 7];
    assert |TriangleVerts| / 3 == 3;
    assert FlatTripleInRange(TriangleVerts, indices, 0);
    assert !FlatTripleInRange(TriangleVerts, indices, 1);
    assert FlatFirstOutOfRange(TriangleVerts, indices, 1) == 7;
    ItemStopsAtBadIndex(Kernel, 30, TessellatedRep(3), TriangleVerts, indices, 1);
    assert RowAt(TriangleVerts, 0) == Origin && RowAt(TriangleVerts, 1) == UnitX && RowAt(TriangleVerts, 2) == UnitY;
    assert FlatFace(TriangleVerts, indices, 0) == Triangle;
  }

  /** A representation not tagged "Tessellation" is skipped even when the kernel would fail on it. */
  lemma UntaggedSkipped()
    ensures ExtractFaces(Kernel, [Entity(40, true, Some([ShapeRepresentation(1, Some("SweptSolid"))]))]) == Nothing
  {
    OneProductOneRep(Kernel, 40, ShapeRepresentation(1, Some("SweptSolid")));
  }
}
