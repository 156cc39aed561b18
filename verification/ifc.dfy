/**
 * The part of an IFC model graph that face extraction reads, and the
 * tessellator it calls. Parsing the file and the geometry kernel are
 * foreign: the graph arrives as a sequence and the kernel as a function.
 */
module Ifc {
  import opened Options

  /** The only representation type whose items are tessellated (app.py:15). */
  const TessellationTag: string := "Tessellation"

  /**
   * An `IfcShapeRepresentation`: its step id stands for the geometric
   * content the kernel reads; `representationType` is the optional
   * `RepresentationType` label.
   */
  datatype ShapeRepresentation = ShapeRepresentation(id: nat, representationType: Option<string>)

  /**
   * An entity of the model. `isProduct` says whether `by_type("IfcProduct")`
   * yields it; `representation` is its `Representation` attribute, given as
   * the list of its `Representations`, or `None`.
   */
  datatype Entity = Entity(id: nat, isProduct: bool, representation: Option<seq<ShapeRepresentation>>)

  /**
   * What `ifcopenshell.geom.create_shape` gives back: an exception, or a
   * flat vertex buffer and a flat index buffer.
   */
  datatype Tessellation = ShapeError | Shape(verts: seq<real>, indices: seq<nat>)

  type Tessellator = ShapeRepresentation -> Tessellation

  predicate IsTessellated(rep: ShapeRepresentation)
  {
    rep.representationType == Some(TessellationTag)
  }
}
