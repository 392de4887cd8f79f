/** Vectors, vertices and triangles as the glTF loader produces them. */
module Geometry {

  /** An axis index: 0 is x, 1 is y, 2 is z. */
  type Axis = a: int | 0 <= a < 3

  datatype V3 = V3(x: real, y: real, z: real) {
    function At(a: Axis): real {
      if a == 0 then x else if a == 1 then y else z
    }
  }

  datatype V4 = V4(x: real, y: real, z: real, w: real)

  /** One corner of a triangle: position, texture coordinate, normal, tangent. */
  datatype Vertex = Vertex(pos: V3, u: real, v: real, normal: V3, tangent: V4)

  /** A triangle as pushed by handleGLTF: three vertices and a material index. */
  datatype Triangle = Triangle(v0: Vertex, v1: Vertex, v2: Vertex, material: int) {
    function Vert(j: int): Vertex
      requires 0 <= j < 3
    {
      if j == 0 then v0 else if j == 1 then v1 else v2
    }
  }
}
