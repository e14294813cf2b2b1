/** The state flush and the client-array draws of the bridge
    (src/Android/GLESBridge.c, `bridge_FlushState`, `bridge_DrawElements`
    and `bridge_DrawArrays`): every draw first uploads the emulated state as
    shader uniforms, then packs the vertices it needs out of the client
    arrays, uploads them and issues one native draw call. */
module Draw {
  import opened Common
  import opened Tokens
  import opened Matrix
  import opened MatrixStacks
  import opened BridgeState
  import opened Packer

  /** The values one flush uploads: the three stack tops and the normal
      matrix of the model-view top, the lighting switches and the eight
      lights without their specular colour, fog and alpha-test parameters
      only while those features are on, the texture switch and the current
      colour. */
  function UniformsOf(s: Bridge): (u: Uniforms)
    requires s.Valid()
    ensures u.mv == s.mv.Top() && u.proj == s.proj.Top() && u.tex == s.tex.Top()
    ensures u.normal == NormalMatrix(s.mv.Top())
    ensures u.lighting == s.lighting && u.colorMaterial == s.colorMaterial && u.globalAmbient == s.globalAmbient
    ensures |u.lights| == MAX_LIGHTS
    ensures forall i | 0 <= i < MAX_LIGHTS ::
      u.lights[i] == LightUniform(s.lights[i].enabled, s.lights[i].position, s.lights[i].ambient, s.lights[i].diffuse)
    ensures u.fogEnabled == s.fog.enabled && (u.fog.Some? <==> s.fog.enabled)
    ensures s.fog.enabled ==> u.fog.value == FogUniform(s.fog.color, s.fog.start, s.fog.end)
    ensures u.alphaTestEnabled == s.alphaTest.enabled && (u.alphaTest.Some? <==> s.alphaTest.enabled)
    ensures s.alphaTest.enabled ==> u.alphaTest.value == AlphaUniform(s.alphaTest.ref, s.alphaTest.func)
    ensures u.textureEnabled == s.texture2D && u.currentColor == s.currentColor
  {
    Uniforms(
      s.mv.Top(), s.proj.Top(), s.tex.Top(), NormalMatrix(s.mv.Top()),
      s.lighting, s.colorMaterial, s.globalAmbient,
      seq(MAX_LIGHTS, i requires 0 <= i < MAX_LIGHTS =>
        LightUniform(s.lights[i].enabled, s.lights[i].position, s.lights[i].ambient, s.lights[i].diffuse)),
      s.fog.enabled,
      if s.fog.enabled then Some(FogUniform(s.fog.color, s.fog.start, s.fog.end)) else None,
      s.alphaTest.enabled,
      if s.alphaTest.enabled then Some(AlphaUniform(s.alphaTest.ref, s.alphaTest.func)) else None,
      s.texture2D,
      s.currentColor)
  }

  /** `bridge_FlushState`: nothing without a linked program, otherwise one
      upload of every uniform. */
  function FlushState(s: Bridge): (r: seq<Event>)
    requires s.Valid()
    ensures s.handles.program == 0 <==> r == []
    ensures s.handles.program != 0 ==> r == [UniformSync(UniformsOf(s))]
  {
    if s.handles.program == 0 then [] else [UniformSync(UniformsOf(s))]
  }

  /** What the shader sees does not depend on the lights' specular colours,
      on GL_NORMALIZE, on the fog parameters while fog is off or on the
      alpha-test parameters while the alpha test is off. */
  lemma UniformsIgnoreUnused(s: Bridge, t: Bridge)
    requires s.Valid() && t.Valid()
    requires t == s.(lights := t.lights, normalize := t.normalize, fog := t.fog, alphaTest := t.alphaTest)
    requires forall i | 0 <= i < MAX_LIGHTS :: t.lights[i] == s.lights[i].(specular := t.lights[i].specular)
    requires t.fog.enabled == s.fog.enabled && (s.fog.enabled ==> t.fog.(density := s.fog.density, mode := s.fog.mode) == s.fog)
    requires t.alphaTest.enabled == s.alphaTest.enabled && (s.alphaTest.enabled ==> t.alphaTest == s.alphaTest)
    ensures UniformsOf(t) == UniformsOf(s)
  {
    var u := UniformsOf(s);
    var v := UniformsOf(t);
    assert forall i | 0 <= i < MAX_LIGHTS :: v.lights[i] == u.lights[i];
  }

  /** The uploaded normal matrix is the upper-left 3x3 of the uploaded
      model-view matrix. */
  lemma NormalMatrixOfUpload(s: Bridge, row: nat, col: nat)
    requires s.Valid() && row < 3 && col < 3
    ensures At3(UniformsOf(s).normal, row, col) == At(UniformsOf(s).mv, row, col)
  {
  }

  /** The byte size of a packed upload of `n` vertices (`numVerts * kStride`;
      the C product is a 32-bit int, see README). */
  function UploadBytes(n: int): (r: int)
    ensures n >= 0 ==> r == n * VERTEX_FLOATS * 4
    ensures r >= 0 <==> n >= 0
  {
    n * VERTEX_BYTES
  }

  /** `bridge_DrawElements`. `indices` is the caller's index buffer, holding
      at least `count` entries, and `ok` whether a scratch buffer that has to
      grow can be allocated. Without a program nothing happens. Otherwise:
      the flush; the upload of one more vertex than the largest index read,
      unless the scratch buffer is missing; the attribute setup; the upload
      of the index buffer; the vertex-colour switch; the indexed draw. */
  function DrawElements(s: Bridge, mem: Memory, mode: nat, count: int, indexType: nat,
                        indices: seq<nat>, ok: bool): (r: Step)
    requires s.Valid() && count <= |indices|
    ensures r.state.Valid()
    ensures s.handles.program == 0 ==> r == Step(s, [])
    ensures r.state == s.(packScratch := r.state.packScratch)
    ensures s.handles.program != 0 ==>
      var n := VertexCount(indexType, indices, count);
      var upload := if r.state.packScratch.present then [UploadVertices(Pack(s.arrays, s.currentColor, mem, n), UploadBytes(n))] else [];
      && r.state.packScratch == Grow(s.packScratch, UploadBytes(n), ok)
      && r.events == FlushState(s) + upload +
           [BindAttributes, UploadIndices(indexType, count * TypeSize(indexType)),
            SetHasVertexColors(HasVertexColors(s.arrays)), DrawCall(mode, count, Some(indexType))]
  {
    if s.handles.program == 0 then Step(s, [])
    else
      var n := VertexCount(indexType, indices, count);
      var scratch := Grow(s.packScratch, UploadBytes(n), ok);
      var upload := if scratch.present then [UploadVertices(Pack(s.arrays, s.currentColor, mem, n), UploadBytes(n))] else [];
      Step(s.(packScratch := scratch),
           FlushState(s) + upload +
           [BindAttributes, UploadIndices(indexType, count * TypeSize(indexType)),
            SetHasVertexColors(HasVertexColors(s.arrays)), DrawCall(mode, count, Some(indexType))])
  }

  /** Every index an indexed draw reads names one of the uploaded vertices,
      and at least one vertex is uploaded. */
  lemma DrawElementsCoversIndices(s: Bridge, mem: Memory, mode: nat, count: int, indexType: nat,
                                  indices: seq<nat>, ok: bool)
    requires s.Valid() && count <= |indices| && s.handles.program != 0
    requires IndexType(indexType)
    requires DrawElements(s, mem, mode, count, indexType, indices, ok).state.packScratch.present
    ensures var r := DrawElements(s, mem, mode, count, indexType, indices, ok);
      && r.events[1].UploadVertices?
      && |r.events[1].vertices| >= 1
      && forall i | 0 <= i < count :: IndexValue(indexType, indices[i]) < |r.events[1].vertices|
  {
  }

  /** The vertex stream pointers as `bridge_DrawArrays` uses them: moved
      ahead by `first` elements only when `first` is positive. */
  function DrawArraysStreams(arrays: ClientArrays, first: int): (r: ClientArrays)
    ensures first <= 0 ==> r == arrays
    ensures forall st: Stream :: r.Get(st).pointer.Some? == arrays.Get(st).pointer.Some?
  {
    if first > 0 then Shift(arrays, first) else arrays
  }

  /** `bridge_DrawArrays`: as `DrawElements`, with `count` vertices packed
      from element `first` on (the stream pointers are advanced for the
      packing and restored afterwards) and a non-indexed draw of them. */
  function DrawArrays(s: Bridge, mem: Memory, mode: nat, first: int, count: int, ok: bool): (r: Step)
    requires s.Valid()
    ensures r.state.Valid()
    ensures s.handles.program == 0 ==> r == Step(s, [])
    ensures r.state == s.(packScratch := r.state.packScratch)
    ensures r.state.arrays == s.arrays
    ensures s.handles.program != 0 ==>
      var upload := if r.state.packScratch.present
                    then [UploadVertices(Pack(DrawArraysStreams(s.arrays, first), s.currentColor, mem, count), UploadBytes(count))]
                    else [];
      && r.state.packScratch == Grow(s.packScratch, UploadBytes(count), ok)
      && r.events == FlushState(s) + upload +
           [BindAttributes, SetHasVertexColors(HasVertexColors(s.arrays)), DrawCall(mode, count, None)]
  {
    if s.handles.program == 0 then Step(s, [])
    else
      var arrays := DrawArraysStreams(s.arrays, first);
      var scratch := Grow(s.packScratch, UploadBytes(count), ok);
      var upload := if scratch.present then [UploadVertices(Pack(arrays, s.currentColor, mem, count), UploadBytes(count))] else [];
      Step(s.(packScratch := scratch),
           FlushState(s) + upload +
           [BindAttributes, SetHasVertexColors(HasVertexColors(arrays)), DrawCall(mode, count, None)])
  }

  /** The vertices `DrawArrays(first, count)` uploads are elements
      `first .. first + count` of the client arrays. With a first element
      that is not positive, the pointers are used as they are. */
  lemma DrawArraysUploadsRange(s: Bridge, mem: Memory, mode: nat, first: int, count: int, ok: bool)
    requires s.Valid() && s.handles.program != 0 && count > 0
    requires DrawArrays(s, mem, mode, first, count, ok).state.packScratch.present
    ensures var r := DrawArrays(s, mem, mode, first, count, ok);
      && r.events[1].UploadVertices?
      && r.events[1].bytes == count * VERTEX_BYTES
      && (first >= 0 ==> r.events[1].vertices == Pack(s.arrays, s.currentColor, mem, first + count)[first..])
      && (first <= 0 ==> r.events[1].vertices == Pack(s.arrays, s.currentColor, mem, count))
  {
    if first > 0 {
      PackShift(s.arrays, s.currentColor, mem, first, count);
    }
  }

  /** A draw whose scratch buffer is missing still draws, but uploads no
      vertices: the attribute setup is the second call. */
  lemma MissingScratchSkipsUpload(s: Bridge, mem: Memory, mode: nat, first: int, count: int)
    requires s.Valid() && s.handles.program != 0
    requires !Grow(s.packScratch, UploadBytes(count), false).present
    ensures var r := DrawArrays(s, mem, mode, first, count, false);
      r.events == [UniformSync(UniformsOf(s)), BindAttributes,
                   SetHasVertexColors(HasVertexColors(s.arrays)), DrawCall(mode, count, None)]
  {
  }
}
