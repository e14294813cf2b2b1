/** Start-up and tear-down of the bridge (src/Android/GLESBridge.c,
    `GLESBridge_Init` and `GLESBridge_Shutdown`). The outcome of compiling
    and linking the shaders and the names the native API hands out are
    parameters: the model does not compile GLSL. */
module Lifecycle {
  import opened Common
  import opened Tokens
  import opened Matrix
  import opened MatrixStacks
  import opened BridgeState
  import opened Packer
  import opened Draw
  import opened Immediate

  /** What the native API returns during a first initialisation: the linked
      program (0 when compiling or linking failed) and the generated buffer
      and vertex-array names. */
  datatype InitOutcome = InitOutcome(program: nat, vbo: nat, ibo: nat, vao: nat)

  /** The three stacks reset to a single identity matrix, the model-view
      stack selected and the mode recorded as GL_MODELVIEW. */
  function ResetStacks(s: Bridge): (r: Bridge)
    requires s.Valid()
    ensures r.Valid()
    ensures forall id: StackId :: r.Stack(id).top == 0 && r.Stack(id).Top() == Identity()
    ensures r.active == ModelView && r.mode == MODELVIEW
    ensures r == s.(mv := r.mv, proj := r.proj, tex := r.tex, active := ModelView, mode := MODELVIEW)
  {
    s.(mv := s.mv.Reset(), proj := s.proj.Reset(), tex := s.tex.Reset(), active := ModelView, mode := MODELVIEW)
  }

  /** Light `i` as a first initialisation leaves it: off, black ambient,
      white diffuse for light 0 and black for the others, positioned at
      (0, 0, 1, 0); the specular colour is not touched. */
  function InitialLight(l: Light, i: nat): (r: Light)
    ensures !r.enabled && r.specular == l.specular
    ensures r.ambient == [0.0, 0.0, 0.0, 1.0] && r.position == [0.0, 0.0, 1.0, 0.0]
    ensures i == 0 <==> r.diffuse == [1.0, 1.0, 1.0, 1.0]
    ensures i != 0 ==> r.diffuse == [0.0, 0.0, 0.0, 1.0]
  {
    var d := if i == 0 then 1.0 else 0.0;
    Light([0.0, 0.0, 1.0, 0.0], [0.0, 0.0, 0.0, 1.0], [d, d, d, 1.0], l.specular, false)
  }

  /** `GLESBridge_Init`. With a program already linked only the stacks and
      the matrix mode are reset. Otherwise the lights are reset too, and
      when the shaders link the program and the new native names are kept;
      when they do not, the bridge stays without a program and every draw
      stays a no-op. Fog, alpha test, global ambient, the toggles, the client
      arrays and the current colour are never reset. */
  function Init(s: Bridge, out: InitOutcome): (r: Bridge)
    requires s.Valid()
    ensures r.Valid()
    ensures forall id: StackId :: r.Stack(id).top == 0 && r.Stack(id).Top() == Identity()
    ensures r.active == ModelView && r.mode == MODELVIEW
    ensures r == s.(mv := r.mv, proj := r.proj, tex := r.tex, active := ModelView, mode := MODELVIEW,
                    lights := r.lights, handles := r.handles)
    ensures s.handles.program != 0 ==> r.lights == s.lights && r.handles == s.handles
    ensures s.handles.program == 0 ==>
      && (forall i | 0 <= i < MAX_LIGHTS :: r.lights[i] == InitialLight(s.lights[i], i))
      && (out.program != 0 ==> r.handles == Handles(out.program, out.vbo, out.ibo, out.vao))
      && (out.program == 0 ==> r.handles == s.handles)
  {
    var t := ResetStacks(s);
    if s.handles.program != 0 then t
    else
      var lit := t.(lights := seq(MAX_LIGHTS, i requires 0 <= i < MAX_LIGHTS => InitialLight(s.lights[i], i)));
      if out.program == 0 then lit
      else lit.(handles := Handles(out.program, out.vbo, out.ibo, out.vao))
  }

  /** `GLESBridge_Shutdown`: the program, buffers and vertex array are
      deleted and their names cleared; all emulated state is kept. */
  function Shutdown(s: Bridge): (r: Bridge)
    requires s.Valid()
    ensures r.Valid() && r.handles == Handles(0, 0, 0, 0)
    ensures r == s.(handles := r.handles)
  {
    s.(handles := Handles(0, 0, 0, 0))
  }

  /** Once a program is linked, a second `Init` changes nothing, whatever
      the native API would answer. */
  lemma InitIdempotent(s: Bridge, out: InitOutcome, again: InitOutcome)
    requires s.Valid() && Init(s, out).handles.program != 0
    ensures Init(Init(s, out), again) == Init(s, out)
  {
    var r := Init(s, out);
    assert r.mv.slots[0 := Identity()] == r.mv.slots;
    assert r.proj.slots[0 := Identity()] == r.proj.slots;
    assert r.tex.slots[0 := Identity()] == r.tex.slots;
  }

  /** A re-initialisation resets the matrix stacks even after the caller
      has changed them, but keeps the lights as the caller set them. */
  lemma ReinitKeepsLights(s: Bridge, out: InitOutcome)
    requires s.Valid() && s.handles.program != 0
    ensures Init(s, out).lights == s.lights
    ensures Init(s, out).mv.Live() == [Identity()]
  {
  }

  /** After a failed link, trying again performs a full first
      initialisation: it is as if the failed attempt had not happened,
      apart from the stack slots above the bottom, which no call can read
      before a push overwrites them. */
  lemma RetryAfterFailedLink(s: Bridge, failed: InitOutcome, out: InitOutcome)
    requires s.Valid() && s.handles.program == 0 && failed.program == 0
    ensures Init(Init(s, failed), out) == Init(s, out)
  {
    var r := Init(s, failed);
    assert r.mv.slots[0 := Identity()] == r.mv.slots;
    assert r.proj.slots[0 := Identity()] == r.proj.slots;
    assert r.tex.slots[0 := Identity()] == r.tex.slots;
    assert s.mv.slots[0 := Identity()] == r.mv.slots;
    var a := Init(r, out);
    var b := Init(s, out);
    assert forall i | 0 <= i < MAX_LIGHTS :: InitialLight(r.lights[i], i) == InitialLight(s.lights[i], i);
    assert a.lights == b.lights;
  }

  /** `Shutdown` twice is `Shutdown` once. */
  lemma ShutdownIdempotent(s: Bridge)
    requires s.Valid()
    ensures Shutdown(Shutdown(s)) == Shutdown(s)
  {
  }

  /** After `Shutdown` every draw entry point and the flush do nothing. */
  lemma DrawsAfterShutdown(s: Bridge, mem: Memory, mode: nat, first: int, count: int,
                           indexType: nat, indices: seq<nat>, ok: bool)
    requires s.Valid() && count <= |indices|
    ensures var d := Shutdown(s);
      && FlushState(d) == []
      && DrawElements(d, mem, mode, count, indexType, indices, ok) == Step(d, [])
      && DrawArrays(d, mem, mode, first, count, ok) == Step(d, [])
      && End(d, ok) == Step(d, [])
  {
  }

  /** Shutting down and initialising again with a program that links
      resets the lights and installs the new program and names. */
  lemma RestartAfterShutdown(s: Bridge, out: InitOutcome)
    requires s.Valid() && out.program != 0
    ensures var r := Init(Shutdown(s), out);
      && r.handles == Handles(out.program, out.vbo, out.ibo, out.vao)
      && forall i | 0 <= i < MAX_LIGHTS :: r.lights[i] == InitialLight(s.lights[i], i)
  {
  }
}
