/** The token table of the legacy fixed-function API that the bridge
    dispatches on (src/Android/gles_compat.h), together with decoders from raw
    tokens into closed enumerations. The element-type tokens (GL_FLOAT, ...)
    and GL_TEXTURE_2D come from the OpenGL ES 3.0 header, which is not part of
    this model; their values are those fixed by the OpenGL ES 3.0 standard. */
module Tokens {
  import opened Common

  // Matrix modes and matrix read-back tokens
  const MODELVIEW: nat := 0x1700
  const PROJECTION: nat := 0x1701
  const TEXTURE: nat := 0x1702
  const MODELVIEW_MATRIX: nat := 0x0BA6
  const PROJECTION_MATRIX: nat := 0x0BA7

  // Lights
  const LIGHT0: nat := 0x4000
  const LIGHT1: nat := 0x4001
  const LIGHT2: nat := 0x4002
  const LIGHT3: nat := 0x4003
  const LIGHT4: nat := 0x4004
  const LIGHT5: nat := 0x4005
  const LIGHT6: nat := 0x4006
  const LIGHT7: nat := 0x4007
  const MAX_LIGHTS: nat := 8

  /** The eight light tokens in the order of their light index. */
  const LIGHT_TOKENS: seq<nat> := [LIGHT0, LIGHT1, LIGHT2, LIGHT3, LIGHT4, LIGHT5, LIGHT6, LIGHT7]

  // Light parameters
  const AMBIENT: nat := 0x1200
  const DIFFUSE: nat := 0x1201
  const SPECULAR: nat := 0x1202
  const POSITION: nat := 0x1203
  const LIGHT_MODEL_AMBIENT: nat := 0x0B53

  // Fog
  const FOG: nat := 0x0B60
  const FOG_DENSITY: nat := 0x0B62
  const FOG_START: nat := 0x0B63
  const FOG_END: nat := 0x0B64
  const FOG_MODE: nat := 0x0B65
  const FOG_COLOR: nat := 0x0B66
  const LINEAR: nat := 0x2601

  // Alpha test
  const ALPHA_TEST: nat := 0x0BC0
  const NEVER: nat := 0x0200
  const LESS: nat := 0x0201
  const EQUAL: nat := 0x0202
  const LEQUAL: nat := 0x0203
  const GREATER: nat := 0x0204
  const NOTEQUAL: nat := 0x0205
  const GEQUAL: nat := 0x0206
  const ALWAYS: nat := 0x0207

  // Capabilities the bridge tracks itself
  const LIGHTING: nat := 0x0B50
  const COLOR_MATERIAL: nat := 0x0B57
  const NORMALIZE: nat := 0x0BA1
  const TEXTURE_2D: nat := 0x0DE1

  // Client arrays
  const VERTEX_ARRAY: nat := 0x8074
  const NORMAL_ARRAY: nat := 0x8075
  const COLOR_ARRAY: nat := 0x8076
  const TEXTURE_COORD_ARRAY: nat := 0x8078

  // Element types (OpenGL ES 3.0 header)
  const UNSIGNED_BYTE: nat := 0x1401
  const SHORT: nat := 0x1402
  const UNSIGNED_SHORT: nat := 0x1403
  const INT: nat := 0x1404
  const UNSIGNED_INT: nat := 0x1405
  const FLOAT: nat := 0x1406

  /** The three matrix stacks. */
  datatype StackId = ModelView | Projection | Texture

  function StackToken(id: StackId): nat {
    match id
    case ModelView => MODELVIEW
    case Projection => PROJECTION
    case Texture => TEXTURE
  }

  /** The stack a matrix-mode token names, if any. */
  function MatrixModeOf(mode: nat): (r: Option<StackId>)
    ensures r.Some? <==> MODELVIEW <= mode <= TEXTURE
    ensures r.Some? ==> StackToken(r.value) == mode
  {
    if mode == MODELVIEW then Some(ModelView)
    else if mode == PROJECTION then Some(Projection)
    else if mode == TEXTURE then Some(Texture)
    else None
  }

  /** The light a capability token names: exactly the eight light tokens, each
      mapped to its own index, which is what the bridge's range check
      `0x4000 <= cap <= 0x4007` relies on. */
  function LightIndexOf(cap: nat): (r: Option<nat>)
    ensures r.Some? <==> cap in LIGHT_TOKENS
    ensures r.Some? ==> r.value < MAX_LIGHTS && LIGHT_TOKENS[r.value] == cap
  {
    if LIGHT0 <= cap <= LIGHT7 then Some(cap - LIGHT0) else None
  }

  /** The four light parameters a light can be given. */
  datatype LightParam = Ambient | Diffuse | Specular | Position

  function LightParamToken(p: LightParam): nat {
    match p
    case Ambient => AMBIENT
    case Diffuse => DIFFUSE
    case Specular => SPECULAR
    case Position => POSITION
  }

  function LightParamOf(pname: nat): (r: Option<LightParam>)
    ensures r.Some? <==> AMBIENT <= pname <= POSITION
    ensures r.Some? ==> LightParamToken(r.value) == pname
  {
    if pname == AMBIENT then Some(Ambient)
    else if pname == DIFFUSE then Some(Diffuse)
    else if pname == SPECULAR then Some(Specular)
    else if pname == POSITION then Some(Position)
    else None
  }

  /** The eight alpha-test comparisons. */
  datatype Comparison = Never | Less | Equal | LEqual | Greater | NotEqual | GEqual | Always

  function ComparisonToken(c: Comparison): (r: nat)
    ensures NEVER <= r <= ALWAYS
    ensures r == NEVER <==> c == Never
    ensures r == ALWAYS <==> c == Always
  {
    match c
    case Never => NEVER
    case Less => LESS
    case Equal => EQUAL
    case LEqual => LEQUAL
    case Greater => GREATER
    case NotEqual => NOTEQUAL
    case GEqual => GEQUAL
    case Always => ALWAYS
  }

  function ComparisonOf(func: nat): (r: Option<Comparison>)
    ensures r.Some? <==> NEVER <= func <= ALWAYS
  {
    if func == NEVER then Some(Never)
    else if func == LESS then Some(Less)
    else if func == EQUAL then Some(Equal)
    else if func == LEQUAL then Some(LEqual)
    else if func == GREATER then Some(Greater)
    else if func == NOTEQUAL then Some(NotEqual)
    else if func == GEQUAL then Some(GEqual)
    else if func == ALWAYS then Some(Always)
    else None
  }

  /** The alpha-test tokens and the comparisons are in one-to-one
      correspondence: decoding is the inverse of encoding, in both directions,
      so the eight tokens are distinct. */
  lemma ComparisonRoundTrip(c: Comparison, func: nat)
    ensures ComparisonOf(ComparisonToken(c)) == Some(c)
    ensures ComparisonOf(func) == Some(c) <==> ComparisonToken(c) == func
  {
  }

  /** The four client-array streams. */
  datatype Stream = VertexStream | NormalStream | ColorStream | TexCoordStream

  function StreamToken(st: Stream): nat {
    match st
    case VertexStream => VERTEX_ARRAY
    case NormalStream => NORMAL_ARRAY
    case ColorStream => COLOR_ARRAY
    case TexCoordStream => TEXTURE_COORD_ARRAY
  }

  function StreamOf(token: nat): (r: Option<Stream>)
    ensures r.Some? <==> token in {VERTEX_ARRAY, NORMAL_ARRAY, COLOR_ARRAY, TEXTURE_COORD_ARRAY}
    ensures r.Some? ==> StreamToken(r.value) == token
  {
    if token == VERTEX_ARRAY then Some(VertexStream)
    else if token == NORMAL_ARRAY then Some(NormalStream)
    else if token == COLOR_ARRAY then Some(ColorStream)
    else if token == TEXTURE_COORD_ARRAY then Some(TexCoordStream)
    else None
  }

  /** The four client-array tokens are distinct: each stream decodes back from
      its own token. */
  lemma StreamRoundTrip(st: Stream)
    ensures StreamOf(StreamToken(st)) == Some(st)
  {
  }

  /** The six boolean capabilities the bridge tracks itself. */
  datatype Toggle = Lighting | ColorMaterial | Normalize | AlphaTestCap | FogCap | Texture2D

  function ToggleToken(t: Toggle): nat {
    match t
    case Lighting => LIGHTING
    case ColorMaterial => COLOR_MATERIAL
    case Normalize => NORMALIZE
    case AlphaTestCap => ALPHA_TEST
    case FogCap => FOG
    case Texture2D => TEXTURE_2D
  }

  /** The tracked toggle a capability token names, if any. No toggle token is
      also a light token, so the bridge's order of checks does not matter. */
  function ToggleOf(cap: nat): (r: Option<Toggle>)
    ensures r.Some? <==> cap in {LIGHTING, COLOR_MATERIAL, NORMALIZE, ALPHA_TEST, FOG, TEXTURE_2D}
    ensures r.Some? ==> ToggleToken(r.value) == cap && LightIndexOf(cap).None?
  {
    if cap == LIGHTING then Some(Lighting)
    else if cap == COLOR_MATERIAL then Some(ColorMaterial)
    else if cap == NORMALIZE then Some(Normalize)
    else if cap == ALPHA_TEST then Some(AlphaTestCap)
    else if cap == FOG then Some(FogCap)
    else if cap == TEXTURE_2D then Some(Texture2D)
    else None
  }

  lemma ToggleRoundTrip(t: Toggle)
    ensures ToggleOf(ToggleToken(t)) == Some(t)
  {
  }
}
