/** Immediate mode (src/Android/GLESBridge.c, `bridge_Begin` ..
    `bridge_TexCoord2f`): vertices are recorded one by one, each with the
    current normal, texture coordinate and colour, into a buffer of at most
    `IMM_MAX_VERTS` entries, and `bridge_End` uploads and draws them. */
module Immediate {
  import opened Common
  import opened BridgeState
  import opened Packer
  import opened Draw

  /** `bridge_Begin`: starts an empty primitive of the given mode. */
  function Begin(s: Bridge, mode: nat): (r: Bridge)
    requires s.Valid()
    ensures r.Valid() && r.imm == [] && r.immMode == mode
    ensures r == s.(imm := [], immMode := mode)
  {
    s.(imm := [], immMode := mode)
  }

  /** The vertex `bridge_Vertex3f` records at the given position. */
  function Snapshot(s: Bridge, position: Vec3): (v: Vertex)
    ensures v.position == position
    ensures v.normal == s.immNormal && v.texcoord == s.immTexCoord && v.color == s.currentColor
  {
    Vertex(position, s.immNormal, s.immTexCoord, s.currentColor)
  }

  /** `bridge_Vertex3f`: appends a vertex carrying the current attributes,
      unless the buffer is full, in which case the call is dropped. */
  function Vertex3f(s: Bridge, x: real, y: real, z: real): (r: Bridge)
    requires s.Valid()
    ensures r.Valid() && r == s.(imm := r.imm)
    ensures |s.imm| >= IMM_MAX_VERTS ==> r == s
    ensures |s.imm| < IMM_MAX_VERTS ==>
      && |r.imm| == |s.imm| + 1
      && r.imm[..|s.imm|] == s.imm
      && r.imm[|s.imm|] == Vertex([x, y, z], s.immNormal, s.immTexCoord, s.currentColor)
  {
    if |s.imm| >= IMM_MAX_VERTS then s
    else s.(imm := s.imm + [Snapshot(s, [x, y, z])])
  }

  /** `bridge_Vertex2f`: a vertex in the z = 0 plane. */
  function Vertex2f(s: Bridge, x: real, y: real): (r: Bridge)
    requires s.Valid()
    ensures r.Valid() && r == s.(imm := r.imm)
    ensures |s.imm| >= IMM_MAX_VERTS ==> r == s
    ensures |s.imm| < IMM_MAX_VERTS ==>
      && r.imm == s.imm + [Snapshot(s, [x, y, 0.0])]
      && r.imm[|s.imm|].position == [x, y, 0.0]
  {
    Vertex3f(s, x, y, 0.0)
  }

  /** `bridge_Normal3f`: the normal later vertices carry. */
  function Normal3f(s: Bridge, x: real, y: real, z: real): (r: Bridge)
    requires s.Valid()
    ensures r.Valid() && r == s.(immNormal := [x, y, z])
  {
    s.(immNormal := [x, y, z])
  }

  /** `bridge_TexCoord2f`: the texture coordinate later vertices carry. */
  function TexCoord2f(s: Bridge, u: real, v: real): (r: Bridge)
    requires s.Valid()
    ensures r.Valid() && r == s.(immTexCoord := [u, v])
  {
    s.(immTexCoord := [u, v])
  }

  /** `bridge_End`. Nothing happens while the buffer is empty or no program
      is linked (the recorded vertices are then kept). Otherwise the state is
      flushed and the buffer emptied; when the scratch buffer is present the
      recorded vertices are uploaded and drawn with the mode `Begin` gave,
      with the per-vertex-colour switch on. */
  function End(s: Bridge, ok: bool): (r: Step)
    requires s.Valid()
    ensures r.state.Valid()
    ensures |s.imm| == 0 || s.handles.program == 0 ==> r == Step(s, [])
    ensures |s.imm| > 0 && s.handles.program != 0 ==>
      && r.state == s.(imm := [], immScratch := Grow(s.immScratch, UploadBytes(|s.imm|), ok))
      && |r.events| >= 1
      && r.events[0] == UniformSync(UniformsOf(s))
      && (!r.state.immScratch.present ==> |r.events| == 1)
      && (r.state.immScratch.present ==>
            r.events[1..] == [UploadVertices(s.imm, UploadBytes(|s.imm|)), BindAttributes,
                              SetHasVertexColors(true), DrawCall(s.immMode, |s.imm|, None)])
  {
    if |s.imm| == 0 || s.handles.program == 0 then Step(s, [])
    else
      var scratch := Grow(s.immScratch, UploadBytes(|s.imm|), ok);
      var cleared := s.(imm := [], immScratch := scratch);
      if !scratch.present then Step(cleared, FlushState(s))
      else
        Step(cleared, FlushState(s) +
          [UploadVertices(s.imm, UploadBytes(|s.imm|)), BindAttributes,
           SetHasVertexColors(true), DrawCall(s.immMode, |s.imm|, None)])
  }

  /** The buffer after recording `positions` one `Vertex3f` at a time. */
  function RecordAll(s: Bridge, positions: seq<Vec3>): (r: Bridge)
    requires s.Valid()
    ensures r.Valid() && r == s.(imm := r.imm)
    ensures |s.imm| <= |r.imm| <= |s.imm| + |positions|
    ensures |s.imm| + |positions| <= IMM_MAX_VERTS ==> |r.imm| == |s.imm| + |positions|
    decreases |positions|
  {
    if |positions| == 0 then s
    else
      var p := positions[|positions| - 1];
      Vertex3f(RecordAll(s, positions[..|positions| - 1]), p[0], p[1], p[2])
  }

  /** Recording keeps every earlier vertex, stops at `IMM_MAX_VERTS`, and
      stamps each vertex with the attributes current when recording. */
  lemma {:induction false} RecordAllContents(s: Bridge, positions: seq<Vec3>)
    requires s.Valid()
    ensures var r := RecordAll(s, positions);
      var k := if |s.imm| + |positions| <= IMM_MAX_VERTS then |positions| else IMM_MAX_VERTS - |s.imm|;
      && r == s.(imm := r.imm)
      && |r.imm| == |s.imm| + k
      && r.imm[..|s.imm|] == s.imm
      && forall i | 0 <= i < k :: r.imm[|s.imm| + i] == Snapshot(s, positions[i])
    decreases |positions|
  {
    if |positions| > 0 {
      var init := positions[..|positions| - 1];
      RecordAllContents(s, init);
      var mid := RecordAll(s, init);
      var p := positions[|positions| - 1];
      assert [p[0], p[1], p[2]] == p;
      var k := if |s.imm| + |positions| <= IMM_MAX_VERTS then |positions| else IMM_MAX_VERTS - |s.imm|;
      forall i | 0 <= i < k
        ensures RecordAll(s, positions).imm[|s.imm| + i] == Snapshot(s, positions[i])
      {
        if i < |init| {
          assert positions[i] == init[i];
        }
      }
    }
  }

  /** The vertices recorded between `Begin` and `End` when the buffer does
      not overflow: one per position, stamped with the current attributes. */
  function Recorded(s: Bridge, positions: seq<Vec3>): (r: seq<Vertex>)
    ensures |r| == |positions|
    ensures forall i | 0 <= i < |positions| :: r[i].position == positions[i]
  {
    seq(|positions|, i requires 0 <= i < |positions| => Snapshot(s, positions[i]))
  }

  /** Recording into an empty buffer, without overflowing it, records
      exactly one stamped vertex per position. */
  lemma {:induction false} RecordFromEmpty(s: Bridge, positions: seq<Vec3>)
    requires s.Valid() && s.imm == [] && |positions| <= IMM_MAX_VERTS
    ensures RecordAll(s, positions) == s.(imm := Recorded(s, positions))
    decreases |positions|
  {
    if |positions| > 0 {
      var init := positions[..|positions| - 1];
      var p := positions[|positions| - 1];
      RecordFromEmpty(s, init);
      var mid := s.(imm := Recorded(s, init));
      assert RecordAll(s, positions) == Vertex3f(mid, p[0], p[1], p[2]);
      assert [p[0], p[1], p[2]] == p;
      assert Vertex3f(mid, p[0], p[1], p[2]) == mid.(imm := Recorded(s, init) + [Snapshot(s, p)]);
      assert Recorded(s, init) + [Snapshot(s, p)] == Recorded(s, positions);
    }
  }

  /** `Begin` followed by up to `IMM_MAX_VERTS` vertices records exactly
      those vertices. */
  lemma BeginRecords(s: Bridge, mode: nat, positions: seq<Vec3>)
    requires s.Valid() && |positions| <= IMM_MAX_VERTS
    ensures RecordAll(Begin(s, mode), positions) == s.(imm := Recorded(s, positions), immMode := mode)
  {
    RecordFromEmpty(Begin(s, mode), positions);
    assert Recorded(Begin(s, mode), positions) == Recorded(s, positions);
  }

  /** `Begin`, up to `IMM_MAX_VERTS` vertices, `End`: with a linked program
      and a scratch buffer, one draw of exactly those vertices, in order,
      with the mode given to `Begin`, after which the buffer is empty. */
  lemma BeginVerticesEnd(s: Bridge, mode: nat, positions: seq<Vec3>, ok: bool)
    requires s.Valid() && s.handles.program != 0
    requires 0 < |positions| <= IMM_MAX_VERTS
    requires Grow(s.immScratch, UploadBytes(|positions|), ok).present
    ensures var r := End(RecordAll(Begin(s, mode), positions), ok);
      && r.state.imm == []
      && |r.events| == 5
      && r.events[1] == UploadVertices(Recorded(s, positions), UploadBytes(|positions|))
      && r.events[4] == DrawCall(mode, |positions|, None)
  {
    BeginRecords(s, mode, positions);
  }

  /** Once the buffer is full further vertices are dropped. */
  lemma FullBufferDrops(s: Bridge, x: real, y: real, z: real)
    requires s.Valid() && |s.imm| == IMM_MAX_VERTS
    ensures Vertex3f(s, x, y, z) == s
  {
  }

  /** `End` with a program leaves nothing recorded, whatever the
      allocation does, so a second `End` does nothing. */
  lemma EndTwice(s: Bridge, ok1: bool, ok2: bool)
    requires s.Valid() && s.handles.program != 0
    ensures End(End(s, ok1).state, ok2) == Step(End(s, ok1).state, [])
  {
  }
}
