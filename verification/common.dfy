/** Small shared vocabulary: optional values, answers to queries that the
    bridge may forward to the native API, and the fixed-length float vectors
    that the fixed-function state is made of. */
module Common {

  /** The usual Some/None datatype; `None` stands for a NULL pointer or an
      unrecognised token. */
  datatype Option<+T> = None | Some(value: T)

  /** The answer to a query (`IsEnabled`, `GetFloatv`): either the bridge
      answers it from its own state, or it forwards the query unchanged to the
      native graphics API, whose answer is outside this model. */
  datatype Query<+T> = Answered(value: T) | Forwarded

  type Vec2 = v: seq<real> | |v| == 2 witness [0.0, 0.0]
  type Vec3 = v: seq<real> | |v| == 3 witness [0.0, 0.0, 0.0]
  type Vec4 = v: seq<real> | |v| == 4 witness [0.0, 0.0, 0.0, 0.0]
}
