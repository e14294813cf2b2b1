/** The fixed-function state store (src/Android/GLESBridge.c, lighting, fog,
    alpha test, current colour and `bridge_Enable`/`Disable`/`IsEnabled`):
    setters copy their arguments into the state and touch nothing else, and
    the capability dispatch keeps lights and six toggles itself while passing
    every other capability to the native API. */
module StateStore {
  import opened Common
  import opened Tokens
  import opened BridgeState

  function LightParamValue(l: Light, p: LightParam): Vec4 {
    match p
    case Ambient => l.ambient
    case Diffuse => l.diffuse
    case Specular => l.specular
    case Position => l.position
  }

  function WithLightParam(l: Light, p: LightParam, v: Vec4): (r: Light)
    ensures LightParamValue(r, p) == v && r.enabled == l.enabled
    ensures forall q: LightParam | q != p :: LightParamValue(r, q) == LightParamValue(l, q)
  {
    match p
    case Ambient => l.(ambient := v)
    case Diffuse => l.(diffuse := v)
    case Specular => l.(specular := v)
    case Position => l.(position := v)
  }

  /** `bridge_Lightfv`: light tokens outside GL_LIGHT0..GL_LIGHT7 and
      unknown parameter names are ignored; otherwise exactly one 4-vector of
      one light is overwritten. */
  function Lightfv(s: Bridge, light: nat, pname: nat, params: Vec4): (r: Bridge)
    requires s.Valid()
    ensures r.Valid()
    ensures light !in LIGHT_TOKENS || pname !in {AMBIENT, DIFFUSE, SPECULAR, POSITION} ==> r == s
    ensures light in LIGHT_TOKENS && pname in {AMBIENT, DIFFUSE, SPECULAR, POSITION} ==>
      var i := light - LIGHT0;
      var p := LightParamOf(pname).value;
      && r == s.(lights := r.lights)
      && LightParamValue(r.lights[i], p) == params
      && r.lights[i].enabled == s.lights[i].enabled
      && (forall q: LightParam | q != p :: LightParamValue(r.lights[i], q) == LightParamValue(s.lights[i], q))
      && (forall j | 0 <= j < MAX_LIGHTS && j != i :: r.lights[j] == s.lights[j])
  {
    match (LightIndexOf(light), LightParamOf(pname))
    case (Some(i), Some(p)) => s.(lights := s.lights[i := WithLightParam(s.lights[i], p, params)])
    case _ => s
  }

  /** `bridge_LightModelfv`: only the global ambient colour is tracked. */
  function LightModelfv(s: Bridge, pname: nat, params: Vec4): (r: Bridge)
    requires s.Valid()
    ensures r.Valid()
    ensures pname == LIGHT_MODEL_AMBIENT ==> r == s.(globalAmbient := params)
    ensures pname != LIGHT_MODEL_AMBIENT ==> r == s
  {
    if pname == LIGHT_MODEL_AMBIENT then s.(globalAmbient := params) else s
  }

  /** `bridge_Fogf`: start, end and density are stored; any other parameter
      name is ignored. */
  function Fogf(s: Bridge, pname: nat, param: real): (r: Bridge)
    requires s.Valid()
    ensures r.Valid() && r == s.(fog := r.fog)
    ensures pname == FOG_START ==> r.fog == s.fog.(start := param)
    ensures pname == FOG_END ==> r.fog == s.fog.(end := param)
    ensures pname == FOG_DENSITY ==> r.fog == s.fog.(density := param)
    ensures pname !in {FOG_START, FOG_END, FOG_DENSITY} ==> r == s
  {
    if pname == FOG_START then s.(fog := s.fog.(start := param))
    else if pname == FOG_END then s.(fog := s.fog.(end := param))
    else if pname == FOG_DENSITY then s.(fog := s.fog.(density := param))
    else s
  }

  /** `bridge_Fogfv`: the fog colour is handled here; every other parameter
      name is delegated to `Fogf` with the first element. The caller must
      supply four floats for the colour and one otherwise. */
  function Fogfv(s: Bridge, pname: nat, params: seq<real>): (r: Bridge)
    requires s.Valid()
    requires |params| >= 1
    requires pname == FOG_COLOR ==> |params| >= 4
    ensures r.Valid() && r == s.(fog := r.fog)
    ensures pname == FOG_COLOR ==> r.fog == s.fog.(color := params[..4])
    ensures pname != FOG_COLOR ==> r == Fogf(s, pname, params[0])
  {
    if pname == FOG_COLOR then s.(fog := s.fog.(color := params[..4]))
    else Fogf(s, pname, params[0])
  }

  /** `bridge_Fogi`: the fog mode is handled here; every other parameter name
      is delegated to `Fogf` with the integer converted to a float. */
  function Fogi(s: Bridge, pname: nat, param: int): (r: Bridge)
    requires s.Valid()
    ensures r.Valid() && r == s.(fog := r.fog)
    ensures pname == FOG_MODE ==> r.fog == s.fog.(mode := param)
    ensures pname != FOG_MODE ==> r == Fogf(s, pname, param as real)
  {
    if pname == FOG_MODE then s.(fog := s.fog.(mode := param))
    else Fogf(s, pname, param as real)
  }

  /** Of two `Lightfv` calls on the same light and parameter, the second
      wins. */
  lemma LightfvLastWins(s: Bridge, light: nat, pname: nat, a: Vec4, b: Vec4)
    requires s.Valid()
    ensures Lightfv(Lightfv(s, light, pname, a), light, pname, b) == Lightfv(s, light, pname, b)
  {
    match (LightIndexOf(light), LightParamOf(pname))
    case (Some(i), Some(p)) =>
      var l := s.lights[i];
      assert WithLightParam(WithLightParam(l, p, a), p, b) == WithLightParam(l, p, b);
      assert s.lights[i := WithLightParam(l, p, a)][i := WithLightParam(WithLightParam(l, p, a), p, b)]
          == s.lights[i := WithLightParam(l, p, b)];
    case _ =>
  }

  /** Of two `Fogf` calls with the same parameter name, the second wins. */
  lemma FogfLastWins(s: Bridge, pname: nat, a: real, b: real)
    requires s.Valid()
    ensures Fogf(Fogf(s, pname, a), pname, b) == Fogf(s, pname, b)
  {
  }

  /** No fog setter turns fog on or off: that is left to `Enable`/`Disable`. */
  lemma FogSettersKeepEnable(s: Bridge, pname: nat, param: real, params: seq<real>, iparam: int)
    requires s.Valid() && |params| >= 1 && (pname == FOG_COLOR ==> |params| >= 4)
    ensures Fogf(s, pname, param).fog.enabled == s.fog.enabled
    ensures Fogfv(s, pname, params).fog.enabled == s.fog.enabled
    ensures Fogi(s, pname, iparam).fog.enabled == s.fog.enabled
  {
  }

  /** `bridge_AlphaFunc`: stores the comparison token as given (it is not
      checked) and the reference value. */
  function AlphaFunc(s: Bridge, func: nat, ref: real): (r: Bridge)
    requires s.Valid()
    ensures r.Valid()
    ensures r.alphaTest.func == func && r.alphaTest.ref == ref
    ensures r.alphaTest.enabled == s.alphaTest.enabled && r == s.(alphaTest := r.alphaTest)
  {
    s.(alphaTest := s.alphaTest.(func := func, ref := ref))
  }

  /** `bridge_Color4f` */
  function Color4f(s: Bridge, red: real, green: real, blue: real, alpha: real): (r: Bridge)
    requires s.Valid()
    ensures r.Valid()
    ensures r.currentColor[0] == red && r.currentColor[1] == green
    ensures r.currentColor[2] == blue && r.currentColor[3] == alpha
    ensures r == s.(currentColor := r.currentColor)
  {
    s.(currentColor := [red, green, blue, alpha])
  }

  /** `bridge_Color4fv` */
  function Color4fv(s: Bridge, v: Vec4): (r: Bridge)
    requires s.Valid()
    ensures r.Valid() && r == s.(currentColor := v)
  {
    Color4f(s, v[0], v[1], v[2], v[3])
  }

  /** The capabilities `IsEnabled` answers from the bridge's own state: the
      lights and the toggles other than GL_NORMALIZE. */
  predicate Answers(cap: nat) {
    || LightIndexOf(cap).Some?
    || (ToggleOf(cap).Some? && ToggleOf(cap).value != Normalize)
  }

  /** The capabilities `Enable`/`Disable` keep in the bridge's own state. */
  predicate Tracks(cap: nat) {
    LightIndexOf(cap).Some? || ToggleOf(cap).Some?
  }

  /** The common body of `bridge_Enable` (`on`) and `bridge_Disable`. */
  function SetCapability(s: Bridge, cap: nat, on: bool): (r: Step)
    requires s.Valid()
    ensures r.state.Valid()
    ensures Tracks(cap) ==> r.events == []
    ensures !Tracks(cap) ==> r.state == s && r.events == [if on then NativeEnable(cap) else NativeDisable(cap)]
    ensures LightIndexOf(cap).Some? ==>
      var i := LightIndexOf(cap).value;
      && r.state.lights[i] == s.lights[i].(enabled := on)
      && (forall j | 0 <= j < MAX_LIGHTS && j != i :: r.state.lights[j] == s.lights[j])
      && r.state == s.(lights := r.state.lights)
    ensures ToggleOf(cap).Some? ==>
      var t := ToggleOf(cap).value;
      && r.state.Toggle(t) == on
      && (forall other: Toggle | other != t :: r.state.Toggle(other) == s.Toggle(other))
      && r.state == s.WithToggle(t, on)
  {
    match LightIndexOf(cap)
    case Some(i) => Step(s.(lights := s.lights[i := s.lights[i].(enabled := on)]), [])
    case None =>
      match ToggleOf(cap)
      case Some(t) => Step(s.WithToggle(t, on), [])
      case None => Step(s, [if on then NativeEnable(cap) else NativeDisable(cap)])
  }

  /** `bridge_Enable` */
  function Enable(s: Bridge, cap: nat): (r: Step)
    requires s.Valid()
    ensures r.state.Valid()
    ensures Answers(cap) ==> IsEnabled(r.state, cap) == Answered(true)
    ensures !Tracks(cap) ==> r.state == s && r.events == [NativeEnable(cap)]
    ensures LightIndexOf(cap).Some? ==>
      r.state == s.(lights := s.lights[cap - LIGHT0 := s.lights[cap - LIGHT0].(enabled := true)])
    ensures ToggleOf(cap).Some? ==> r.state == s.WithToggle(ToggleOf(cap).value, true)
  {
    SetCapability(s, cap, true)
  }

  /** `bridge_Disable` */
  function Disable(s: Bridge, cap: nat): (r: Step)
    requires s.Valid()
    ensures r.state.Valid()
    ensures Answers(cap) ==> IsEnabled(r.state, cap) == Answered(false)
    ensures !Tracks(cap) ==> r.state == s && r.events == [NativeDisable(cap)]
    ensures LightIndexOf(cap).Some? ==>
      r.state == s.(lights := s.lights[cap - LIGHT0 := s.lights[cap - LIGHT0].(enabled := false)])
    ensures ToggleOf(cap).Some? ==> r.state == s.WithToggle(ToggleOf(cap).value, false)
  {
    SetCapability(s, cap, false)
  }

  /** `bridge_IsEnabled`: lights and the tracked toggles are answered from
      the state, except GL_NORMALIZE, which like every other capability is
      forwarded to the native query. */
  function IsEnabled(s: Bridge, cap: nat): (r: Query<bool>)
    requires s.Valid()
    ensures r.Answered? <==> Answers(cap)
    ensures LightIndexOf(cap).Some? ==> r == Answered(s.lights[cap - LIGHT0].enabled)
    ensures cap in {LIGHTING, COLOR_MATERIAL, ALPHA_TEST, FOG, TEXTURE_2D} ==> r == Answered(s.Toggle(ToggleOf(cap).value))
  {
    match LightIndexOf(cap)
    case Some(i) => Answered(s.lights[i].enabled)
    case None =>
      if cap == LIGHTING then Answered(s.lighting)
      else if cap == COLOR_MATERIAL then Answered(s.colorMaterial)
      else if cap == ALPHA_TEST then Answered(s.alphaTest.enabled)
      else if cap == FOG then Answered(s.fog.enabled)
      else if cap == TEXTURE_2D then Answered(s.texture2D)
      else Forwarded
  }

  /** GL_NORMALIZE is stored by `Enable`/`Disable` but never answered from
      the state. */
  lemma NormalizeTrackedNotAnswered(s: Bridge, on: bool)
    requires s.Valid()
    ensures SetCapability(s, NORMALIZE, on).state.normalize == on
    ensures IsEnabled(SetCapability(s, NORMALIZE, on).state, NORMALIZE) == Forwarded
  {
  }

  /** The last of an `Enable` and a `Disable` of the same capability wins. */
  lemma LastSetWins(s: Bridge, cap: nat)
    requires s.Valid()
    ensures Disable(Enable(s, cap).state, cap).state == Disable(s, cap).state
    ensures Enable(Disable(s, cap).state, cap).state == Enable(s, cap).state
  {
    match LightIndexOf(cap)
    case Some(i) =>
      assert s.lights[i := s.lights[i].(enabled := true)][i := s.lights[i].(enabled := false)]
          == s.lights[i := s.lights[i].(enabled := false)];
      assert s.lights[i := s.lights[i].(enabled := false)][i := s.lights[i].(enabled := true)]
          == s.lights[i := s.lights[i].(enabled := true)];
    case None =>
      match ToggleOf(cap)
      case Some(t) => ToggleTwice(s, t);
      case None =>
  }

  /** Setting a toggle twice leaves the second value. */
  lemma ToggleTwice(s: Bridge, t: Toggle)
    ensures s.WithToggle(t, true).WithToggle(t, false) == s.WithToggle(t, false)
    ensures s.WithToggle(t, false).WithToggle(t, true) == s.WithToggle(t, true)
  {
    match t
    case Lighting =>
    case ColorMaterial =>
    case Normalize =>
    case AlphaTestCap =>
    case FogCap =>
    case Texture2D =>
  }

  /** The answer for a capability depends only on the state it reads: the
      light's flag or the toggle's flag. */
  lemma IsEnabledReads(s: Bridge, t: Bridge, cap: nat)
    requires s.Valid() && t.Valid()
    requires LightIndexOf(cap).Some? ==>
      s.lights[LightIndexOf(cap).value].enabled == t.lights[LightIndexOf(cap).value].enabled
    requires ToggleOf(cap).Some? ==> s.Toggle(ToggleOf(cap).value) == t.Toggle(ToggleOf(cap).value)
    ensures IsEnabled(s, cap) == IsEnabled(t, cap)
  {
  }

  /** Setting one capability does not change the answer for another. */
  lemma SetCapabilityFrame(s: Bridge, cap: nat, other: nat, on: bool)
    requires s.Valid() && cap != other
    ensures IsEnabled(SetCapability(s, cap, on).state, other) == IsEnabled(s, other)
  {
    var r := SetCapability(s, cap, on).state;
    if LightIndexOf(other).Some? {
      var j := LightIndexOf(other).value;
      if LightIndexOf(cap).Some? {
        assert LightIndexOf(cap).value != j;
      }
      assert r.lights[j] == s.lights[j];
    }
    if ToggleOf(other).Some? {
      var t := ToggleOf(other).value;
      if ToggleOf(cap).Some? {
        assert ToggleOf(cap).value != t;
      }
      assert r.Toggle(t) == s.Toggle(t);
    }
    IsEnabledReads(r, s, other);
  }
}
