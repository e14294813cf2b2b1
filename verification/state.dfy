/** The state the bridge keeps (src/Android/GLESBridge.c, the module-level
    variables), gathered into one immutable record, and the events by which
    the model stands in for the calls the bridge makes into the native
    graphics API. */
module BridgeState {
  import opened Common
  import opened Tokens
  import opened Matrix
  import opened MatrixStacks

  /** `IMM_MAX_VERTS`: capacity of the immediate-mode vertex buffer. */
  const IMM_MAX_VERTS: nat := 8192

  /** `LightState` */
  datatype Light = Light(position: Vec4, ambient: Vec4, diffuse: Vec4, specular: Vec4, enabled: bool)

  /** `FogState` */
  datatype Fog = Fog(color: Vec4, start: real, end: real, density: real, mode: int, enabled: bool)

  /** The alpha-test state: the raw comparison token as the caller gave it,
      the reference value, and the enable flag. */
  datatype AlphaTest = AlphaTest(func: nat, ref: real, enabled: bool)

  /** `ClientArray`: one vertex stream as the caller bound it. The pointer is
      a byte address in the caller's memory, `None` for NULL. */
  datatype ClientArray = ClientArray(enabled: bool, size: int, elemType: nat, stride: int, pointer: Option<int>)

  /** The four client arrays. */
  datatype ClientArrays = ClientArrays(vertex: ClientArray, normal: ClientArray, color: ClientArray, texCoord: ClientArray) {

    function Get(st: Stream): ClientArray {
      match st
      case VertexStream => vertex
      case NormalStream => normal
      case ColorStream => color
      case TexCoordStream => texCoord
    }

    function Set(st: Stream, a: ClientArray): (r: ClientArrays)
      ensures r.Get(st) == a
      ensures forall other: Stream | other != st :: r.Get(other) == Get(other)
    {
      match st
      case VertexStream => this.(vertex := a)
      case NormalStream => this.(normal := a)
      case ColorStream => this.(color := a)
      case TexCoordStream => this.(texCoord := a)
    }
  }

  /** One vertex of the fixed interleaved layout the uber-shader reads:
      position, normal, texture coordinate and colour (12 floats). It is both
      what the packer writes per vertex and what immediate mode records
      (`ImmVertex`). */
  datatype Vertex = Vertex(position: Vec3, normal: Vec3, texcoord: Vec2, color: Vec4)

  /** A grow-only scratch buffer kept in a static pointer: its recorded
      capacity in bytes and whether the last allocation succeeded. */
  datatype Scratch = Scratch(capacity: int, present: bool)

  /** The native object handles; 0 means none. */
  datatype Handles = Handles(program: nat, vbo: nat, ibo: nat, vao: nat)

  datatype Bridge = Bridge(
    mv: MatrixStack,
    proj: MatrixStack,
    tex: MatrixStack,
    active: StackId,          // the stack `gCurrentStack` points to
    mode: nat,                // `gCurrentMode`, the raw token last given to MatrixMode
    lights: seq<Light>,
    globalAmbient: Vec4,
    fog: Fog,
    alphaTest: AlphaTest,
    lighting: bool,
    colorMaterial: bool,
    normalize: bool,
    texture2D: bool,
    currentColor: Vec4,
    arrays: ClientArrays,
    packScratch: Scratch,     // the buffer `UploadClientArrays` packs into
    immScratch: Scratch,      // the buffer `bridge_End` packs into
    imm: seq<Vertex>,         // the recorded immediate-mode vertices
    immMode: nat,
    immNormal: Vec3,
    immTexCoord: Vec2,
    handles: Handles)
  {
    predicate Valid() {
      && mv.Valid() && proj.Valid() && tex.Valid()
      && |lights| == MAX_LIGHTS
      && |imm| <= IMM_MAX_VERTS
    }

    function Stack(id: StackId): MatrixStack {
      match id
      case ModelView => mv
      case Projection => proj
      case Texture => tex
    }

    function WithStack(id: StackId, st: MatrixStack): (r: Bridge)
      ensures r.Stack(id) == st
      ensures forall other: StackId | other != id :: r.Stack(other) == Stack(other)
    {
      match id
      case ModelView => this.(mv := st)
      case Projection => this.(proj := st)
      case Texture => this.(tex := st)
    }

    function Toggle(t: Toggle): bool {
      match t
      case Lighting => lighting
      case ColorMaterial => colorMaterial
      case Normalize => normalize
      case AlphaTestCap => alphaTest.enabled
      case FogCap => fog.enabled
      case Texture2D => texture2D
    }

    function WithToggle(t: Toggle, on: bool): (r: Bridge)
      ensures r.Toggle(t) == on
      ensures forall other: Toggle | other != t :: r.Toggle(other) == Toggle(other)
    {
      match t
      case Lighting => this.(lighting := on)
      case ColorMaterial => this.(colorMaterial := on)
      case Normalize => this.(normalize := on)
      case AlphaTestCap => this.(alphaTest := alphaTest.(enabled := on))
      case FogCap => this.(fog := fog.(enabled := on))
      case Texture2D => this.(texture2D := on)
    }
  }

  /** The state before `GLESBridge_Init` runs: the static initialisers, and
      zero for everything without one. */
  function Boot(): (r: Bridge)
    ensures r.Valid()
    ensures r.handles.program == 0 && r.imm == []
    ensures forall st: Stream :: !r.arrays.Get(st).enabled && r.arrays.Get(st).pointer.None?
  {
    var zero4: Vec4 := [0.0, 0.0, 0.0, 0.0];
    Bridge(
      ZeroStack(), ZeroStack(), ZeroStack(),
      ModelView, 0,
      seq(MAX_LIGHTS, _ => Light(zero4, zero4, zero4, zero4, false)),
      [0.2, 0.2, 0.2, 1.0],
      Fog([0.0, 0.0, 0.0, 1.0], 0.0, 1.0, 1.0, LINEAR as int, false),
      AlphaTest(ALWAYS, 0.0, false),
      false, false, false, false,
      [1.0, 1.0, 1.0, 1.0],
      ClientArrays(
        ClientArray(false, 4, FLOAT, 0, None),
        ClientArray(false, 3, FLOAT, 0, None),
        ClientArray(false, 4, FLOAT, 0, None),
        ClientArray(false, 2, FLOAT, 0, None)),
      Scratch(0, false), Scratch(0, false),
      [], 0, [0.0, 0.0, 1.0], [0.0, 0.0],
      Handles(0, 0, 0, 0))
  }

  /** One light as the shader receives it (specular is not uploaded). */
  datatype LightUniform = LightUniform(enabled: bool, position: Vec4, ambient: Vec4, diffuse: Vec4)

  datatype FogUniform = FogUniform(color: Vec4, start: real, end: real)

  datatype AlphaUniform = AlphaUniform(ref: real, func: nat)

  /** The uniform values one state flush uploads. Fog and alpha-test
      parameters are uploaded only while their feature is enabled; `None`
      means the shader keeps whatever it was last given. */
  datatype Uniforms = Uniforms(
    mv: Mat4,
    proj: Mat4,
    tex: Mat4,
    normal: Mat3,
    lighting: bool,
    colorMaterial: bool,
    globalAmbient: Vec4,
    lights: seq<LightUniform>,
    fogEnabled: bool,
    fog: Option<FogUniform>,
    alphaTestEnabled: bool,
    alphaTest: Option<AlphaUniform>,
    textureEnabled: bool,
    currentColor: Vec4)

  /** What the bridge asks of the native graphics API. */
  datatype Event =
    | NativeEnable(cap: nat)                         // glEnable passthrough
    | NativeDisable(cap: nat)                        // glDisable passthrough
    | UniformSync(uniforms: Uniforms)                // bridge_FlushState
    | UploadVertices(vertices: seq<Vertex>, bytes: int)
    | BindAttributes                                 // SetupVAOAttribs
    | UploadIndices(indexType: nat, bytes: int)
    | SetHasVertexColors(flag: bool)
    | DrawCall(mode: nat, count: int, indices: Option<nat>)   // indices: the index type of an indexed draw

  /** The state after an entry point, and the native calls it made, in
      order. */
  datatype Step = Step(state: Bridge, events: seq<Event>)
}
