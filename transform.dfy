/** Transforms of the scene graph. The math library that defines them is not
    part of this model, so a transform is a term built from the three
    operations the scene graph uses: the identity, composition (`*`) and the
    relative transform `delta(from, to)`. The terms satisfy no algebraic law
    (not even that identity is neutral), so whatever is proved about the scene
    graph holds for any transform type with these three operations. */
module Transforms {

  datatype Transform =
    | Identity
    | Compose(lhs: Transform, rhs: Transform)
    | Delta(from: Transform, to: Transform)
}
