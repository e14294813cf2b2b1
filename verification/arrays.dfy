/** The client-array entry points of the bridge (src/Android/GLESBridge.c,
    `bridge_EnableClientState` .. `bridge_ColorPointer`): they only record
    what the caller says about each of the four vertex streams; nothing is
    read from the caller's memory until a draw. */
module ClientState {
  import opened Common
  import opened Tokens
  import opened BridgeState

  /** Replaces one stream's record and nothing else. */
  function WithArray(s: Bridge, st: Stream, a: ClientArray): (r: Bridge)
    requires s.Valid()
    ensures r.Valid() && r == s.(arrays := r.arrays)
    ensures r.arrays.Get(st) == a
    ensures forall other: Stream | other != st :: r.arrays.Get(other) == s.arrays.Get(other)
  {
    s.(arrays := s.arrays.Set(st, a))
  }

  /** The common body of `bridge_EnableClientState` (`on`) and
      `bridge_DisableClientState`: one of the four array tokens sets that
      stream's flag; any other token is ignored. */
  function SetClientState(s: Bridge, token: nat, on: bool): (r: Bridge)
    requires s.Valid()
    ensures r.Valid() && r == s.(arrays := r.arrays)
    ensures StreamOf(token).None? ==> r == s
    ensures StreamOf(token).Some? ==>
      var st := StreamOf(token).value;
      && r.arrays.Get(st) == s.arrays.Get(st).(enabled := on)
      && (forall other: Stream | other != st :: r.arrays.Get(other) == s.arrays.Get(other))
  {
    match StreamOf(token)
    case Some(st) => WithArray(s, st, s.arrays.Get(st).(enabled := on))
    case None => s
  }

  /** `bridge_EnableClientState` */
  function EnableClientState(s: Bridge, token: nat): (r: Bridge)
    requires s.Valid()
    ensures r.Valid()
    ensures StreamOf(token).Some? ==> r.arrays.Get(StreamOf(token).value).enabled
    ensures StreamOf(token).Some? ==>
      var st := StreamOf(token).value;
      r == s.(arrays := s.arrays.Set(st, s.arrays.Get(st).(enabled := true)))
    ensures StreamOf(token).None? ==> r == s
  {
    SetClientState(s, token, true)
  }

  /** `bridge_DisableClientState` */
  function DisableClientState(s: Bridge, token: nat): (r: Bridge)
    requires s.Valid()
    ensures r.Valid()
    ensures StreamOf(token).Some? ==> !r.arrays.Get(StreamOf(token).value).enabled
    ensures StreamOf(token).Some? ==>
      var st := StreamOf(token).value;
      r == s.(arrays := s.arrays.Set(st, s.arrays.Get(st).(enabled := false)))
    ensures StreamOf(token).None? ==> r == s
  {
    SetClientState(s, token, false)
  }

  /** The common body of the four pointer setters: size, element type,
      stride and pointer are stored as given, without any check, and the
      enable flag is kept. */
  function SetPointer(s: Bridge, st: Stream, size: int, elemType: nat, stride: int, pointer: Option<int>): (r: Bridge)
    requires s.Valid()
    ensures r.Valid() && r == s.(arrays := r.arrays)
    ensures r.arrays.Get(st) == ClientArray(s.arrays.Get(st).enabled, size, elemType, stride, pointer)
    ensures forall other: Stream | other != st :: r.arrays.Get(other) == s.arrays.Get(other)
  {
    WithArray(s, st, s.arrays.Get(st).(size := size, elemType := elemType, stride := stride, pointer := pointer))
  }

  /** `bridge_VertexPointer` */
  function VertexPointer(s: Bridge, size: int, elemType: nat, stride: int, pointer: Option<int>): (r: Bridge)
    requires s.Valid()
    ensures r.Valid()
    ensures r.arrays.vertex == ClientArray(s.arrays.vertex.enabled, size, elemType, stride, pointer)
    ensures forall other: Stream | other != VertexStream :: r.arrays.Get(other) == s.arrays.Get(other)
    ensures r == s.(arrays := r.arrays)
  {
    SetPointer(s, VertexStream, size, elemType, stride, pointer)
  }

  /** `bridge_NormalPointer`: normals always have three components. */
  function NormalPointer(s: Bridge, elemType: nat, stride: int, pointer: Option<int>): (r: Bridge)
    requires s.Valid()
    ensures r.Valid()
    ensures r.arrays.normal == ClientArray(s.arrays.normal.enabled, 3, elemType, stride, pointer)
    ensures forall other: Stream | other != NormalStream :: r.arrays.Get(other) == s.arrays.Get(other)
    ensures r == s.(arrays := r.arrays)
  {
    SetPointer(s, NormalStream, 3, elemType, stride, pointer)
  }

  /** `bridge_TexCoordPointer` */
  function TexCoordPointer(s: Bridge, size: int, elemType: nat, stride: int, pointer: Option<int>): (r: Bridge)
    requires s.Valid()
    ensures r.Valid()
    ensures r.arrays.texCoord == ClientArray(s.arrays.texCoord.enabled, size, elemType, stride, pointer)
    ensures forall other: Stream | other != TexCoordStream :: r.arrays.Get(other) == s.arrays.Get(other)
    ensures r == s.(arrays := r.arrays)
  {
    SetPointer(s, TexCoordStream, size, elemType, stride, pointer)
  }

  /** `bridge_ColorPointer` */
  function ColorPointer(s: Bridge, size: int, elemType: nat, stride: int, pointer: Option<int>): (r: Bridge)
    requires s.Valid()
    ensures r.Valid()
    ensures r.arrays.color == ClientArray(s.arrays.color.enabled, size, elemType, stride, pointer)
    ensures forall other: Stream | other != ColorStream :: r.arrays.Get(other) == s.arrays.Get(other)
    ensures r == s.(arrays := r.arrays)
  {
    SetPointer(s, ColorStream, size, elemType, stride, pointer)
  }

  /** Binding a pointer and toggling a stream commute: the pointer setters
      keep the flag and the flag setters keep the pointer. */
  lemma PointerAndFlagCommute(s: Bridge, token: nat, on: bool, st: Stream,
                              size: int, elemType: nat, stride: int, pointer: Option<int>)
    requires s.Valid()
    ensures SetClientState(SetPointer(s, st, size, elemType, stride, pointer), token, on)
         == SetPointer(SetClientState(s, token, on), st, size, elemType, stride, pointer)
  {
    var a := SetClientState(SetPointer(s, st, size, elemType, stride, pointer), token, on);
    var b := SetPointer(SetClientState(s, token, on), st, size, elemType, stride, pointer);
    forall x: Stream ensures a.arrays.Get(x) == b.arrays.Get(x) {
    }
    ArraysExtensionality(a.arrays, b.arrays);
  }

  /** Two sets of client arrays that agree on every stream are equal. */
  lemma ArraysExtensionality(a: ClientArrays, b: ClientArrays)
    requires forall x: Stream :: a.Get(x) == b.Get(x)
    ensures a == b
  {
    assert a.Get(VertexStream) == b.Get(VertexStream);
    assert a.Get(NormalStream) == b.Get(NormalStream);
    assert a.Get(ColorStream) == b.Get(ColorStream);
    assert a.Get(TexCoordStream) == b.Get(TexCoordStream);
  }

  /** Enabling and then disabling a stream restores its flag, and leaves
      everything else as the enable left it. */
  lemma ClientStateLastWins(s: Bridge, token: nat)
    requires s.Valid()
    ensures DisableClientState(EnableClientState(s, token), token) == DisableClientState(s, token)
    ensures EnableClientState(DisableClientState(s, token), token) == EnableClientState(s, token)
  {
    match StreamOf(token)
    case None =>
    case Some(st) =>
      var a := DisableClientState(EnableClientState(s, token), token);
      var b := DisableClientState(s, token);
      forall x: Stream ensures a.arrays.Get(x) == b.arrays.Get(x) {
      }
      ArraysExtensionality(a.arrays, b.arrays);
      var c := EnableClientState(DisableClientState(s, token), token);
      var d := EnableClientState(s, token);
      forall x: Stream ensures c.arrays.Get(x) == d.arrays.Get(x) {
      }
      ArraysExtensionality(c.arrays, d.arrays);
  }
}
