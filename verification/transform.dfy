/** The matrix entry points of the bridge (src/Android/GLESBridge.c,
    `bridge_MatrixMode` .. `bridge_GetFloatv`): each one acts on the top of
    the stack the current matrix mode selects and leaves the rest of the
    bridge alone. */
module Transform {
  import opened Common
  import opened Tokens
  import opened Matrix
  import opened MatrixStacks
  import opened BridgeState

  /** The stack the matrix entry points act on. */
  function Active(s: Bridge): MatrixStack {
    s.Stack(s.active)
  }

  /** `s` and `r` differ at most in the active stack. */
  ghost predicate OnlyActiveChanged(s: Bridge, r: Bridge) {
    r == s.WithStack(s.active, Active(r)) && r.active == s.active
  }

  /** Replaces the active stack. */
  function WithActive(s: Bridge, st: MatrixStack): (r: Bridge)
    requires s.Valid() && st.Valid()
    ensures r.Valid() && OnlyActiveChanged(s, r) && Active(r) == st
  {
    s.WithStack(s.active, st)
  }

  /** `bridge_MatrixMode`: records the raw token and selects the stack it
      names, falling back to the model-view stack for any other token. */
  function MatrixMode(s: Bridge, mode: nat): (r: Bridge)
    requires s.Valid()
    ensures r.Valid() && r.mode == mode
    ensures mode == MODELVIEW ==> r.active == ModelView
    ensures mode == PROJECTION ==> r.active == Projection
    ensures mode == TEXTURE ==> r.active == Texture
    ensures mode !in {MODELVIEW, PROJECTION, TEXTURE} ==> r.active == ModelView
    ensures r == s.(active := r.active, mode := mode)
  {
    var id := match MatrixModeOf(mode) case Some(id) => id case None => ModelView;
    s.(active := id, mode := mode)
  }

  /** `bridge_LoadIdentity` */
  function LoadIdentity(s: Bridge): (r: Bridge)
    requires s.Valid()
    ensures r.Valid() && OnlyActiveChanged(s, r)
    ensures Active(r).top == Active(s).top && Active(r).Top() == Identity()
  {
    WithActive(s, Active(s).SetTop(Identity()))
  }

  /** `bridge_LoadMatrixf` */
  function LoadMatrix(s: Bridge, m: Mat4): (r: Bridge)
    requires s.Valid()
    ensures r.Valid() && OnlyActiveChanged(s, r)
    ensures Active(r).top == Active(s).top && Active(r).Top() == m
  {
    WithActive(s, Active(s).SetTop(m))
  }

  /** `bridge_MultMatrixf`: the active top becomes `top * m`. */
  function MultMatrix(s: Bridge, m: Mat4): (r: Bridge)
    requires s.Valid()
    ensures r.Valid() && OnlyActiveChanged(s, r)
    ensures Active(r).top == Active(s).top && Active(r).Top() == Mul(Active(s).Top(), m)
    ensures forall i | 0 <= i < DEPTH && i != Active(s).top :: Active(r).slots[i] == Active(s).slots[i]
  {
    WithActive(s, Active(s).SetTop(Mul(Active(s).Top(), m)))
  }

  /** `bridge_PushMatrix` */
  function PushMatrix(s: Bridge): (r: Bridge)
    requires s.Valid()
    ensures r.Valid() && OnlyActiveChanged(s, r)
    ensures Active(r) == Active(s).Push()
  {
    WithActive(s, Active(s).Push())
  }

  /** `bridge_PopMatrix` */
  function PopMatrix(s: Bridge): (r: Bridge)
    requires s.Valid()
    ensures r.Valid() && OnlyActiveChanged(s, r)
    ensures Active(r) == Active(s).Pop()
  {
    WithActive(s, Active(s).Pop())
  }

  /** `bridge_Translatef`: a multiplication of the active top by the
      translation operand. */
  function Translate(s: Bridge, x: real, y: real, z: real): (r: Bridge)
    requires s.Valid()
    ensures r.Valid() && OnlyActiveChanged(s, r)
    ensures r == MultMatrix(s, Translation(x, y, z))
  {
    MultMatrix(s, Translation(x, y, z))
  }

  /** `bridge_Scalef`: a multiplication of the active top by the scaling
      operand. */
  function Scale(s: Bridge, x: real, y: real, z: real): (r: Bridge)
    requires s.Valid()
    ensures r.Valid() && OnlyActiveChanged(s, r)
    ensures r == MultMatrix(s, Scaling(x, y, z))
  {
    MultMatrix(s, Scaling(x, y, z))
  }

  /** `bridge_GetFloatv`: the model-view and projection tops are answered
      from the stacks, whatever the current mode; every other query is
      forwarded. */
  function GetFloatv(s: Bridge, pname: nat): (r: Query<Mat4>)
    requires s.Valid()
    ensures pname == MODELVIEW_MATRIX ==> r == Answered(s.mv.Top())
    ensures pname == PROJECTION_MATRIX ==> r == Answered(s.proj.Top())
    ensures pname != MODELVIEW_MATRIX && pname != PROJECTION_MATRIX ==> r == Forwarded
  {
    if pname == MODELVIEW_MATRIX then Answered(s.mv.Top())
    else if pname == PROJECTION_MATRIX then Answered(s.proj.Top())
    else Forwarded
  }

  /** The read-back does not depend on the matrix mode. */
  lemma GetFloatvIgnoresMode(s: Bridge, mode: nat, pname: nat)
    requires s.Valid()
    ensures GetFloatv(MatrixMode(s, mode), pname) == GetFloatv(s, pname)
  {
  }

  /** Loading the identity, or selecting a mode, and then reading back the
      model-view matrix sees the change only when the model-view stack is
      the active one. */
  lemma LoadIdentityReadBack(s: Bridge)
    requires s.Valid()
    ensures s.active == ModelView ==> GetFloatv(LoadIdentity(s), MODELVIEW_MATRIX) == Answered(Identity())
    ensures s.active != ModelView ==> GetFloatv(LoadIdentity(s), MODELVIEW_MATRIX) == GetFloatv(s, MODELVIEW_MATRIX)
  {
  }

  /** Selecting the projection stack and loading a matrix makes the
      projection read-back answer that matrix and leaves the model-view
      read-back as it was. */
  lemma LoadProjectionReadBack(s: Bridge, m: Mat4)
    requires s.Valid()
    ensures GetFloatv(LoadMatrix(MatrixMode(s, PROJECTION), m), PROJECTION_MATRIX) == Answered(m)
    ensures GetFloatv(LoadMatrix(MatrixMode(s, PROJECTION), m), MODELVIEW_MATRIX) == GetFloatv(s, MODELVIEW_MATRIX)
  {
  }

  /** Scaling by non-zero factors and scaling back by their reciprocals
      leaves the whole bridge state as it was. */
  lemma ScaleBack(s: Bridge, x: real, y: real, z: real)
    requires s.Valid() && x != 0.0 && y != 0.0 && z != 0.0
    ensures Scale(Scale(s, x, y, z), 1.0 / x, 1.0 / y, 1.0 / z) == s
  {
    var st := Active(s);
    ScalingRestores(st.Top(), x, y, z);
    var r := Scale(Scale(s, x, y, z), 1.0 / x, 1.0 / y, 1.0 / z);
    assert Active(r).slots == st.slots;
  }

  /** Push followed by pop on the active stack, when the push does not
      overflow, restores the whole bridge state except the slot above the top,
      which holds the pushed copy. */
  lemma PushPopMatrix(s: Bridge)
    requires s.Valid() && Active(s).top + 1 < DEPTH
    ensures Active(PopMatrix(PushMatrix(s))).top == Active(s).top
    ensures Active(PopMatrix(PushMatrix(s))).Top() == Active(s).Top()
    ensures Active(PopMatrix(PushMatrix(s))).Live() == Active(s).Live()
    ensures PopMatrix(PushMatrix(s)) == WithActive(s, Active(s).(slots := Active(s).slots[Active(s).top + 1 := Active(s).Top()]))
  {
    PushPop(Active(s));
  }

  /** A push on a full stack and a pop on a stack holding one matrix change
      nothing at all. */
  lemma PushPopBounds(s: Bridge)
    requires s.Valid()
    ensures Active(s).top == DEPTH - 1 ==> PushMatrix(s) == s
    ensures Active(s).top == 0 ==> PopMatrix(s) == s
  {
  }

  /** Translating and translating back leaves the whole bridge state as it
      was. */
  lemma TranslateBack(s: Bridge, x: real, y: real, z: real)
    requires s.Valid()
    ensures Translate(Translate(s, x, y, z), -x, -y, -z) == s
  {
    var st := Active(s);
    TranslationRestores(st.Top(), x, y, z);
    var r := Translate(Translate(s, x, y, z), -x, -y, -z);
    assert Active(r).slots == st.slots;
  }
}
