/** The vertex packer of the bridge (src/Android/GLESBridge.c, `GLTypeSize`,
    `UploadClientArrays`, `SetupVAOAttribs` and `MaxIndex`): client arrays
    are read out of the caller's memory and interleaved into one buffer of
    12 floats per vertex, which is what the shader's four attributes read. */
module Packer {
  import opened Common
  import opened Tokens
  import opened BridgeState

  /** The caller's memory: the float whose first byte is at an address.
      Every component is read as a float, whatever element type the array
      was declared with, as the C code does. */
  type Memory = int -> real

  /** Floats per packed vertex and their offsets: position, normal, texture
      coordinate, colour (`kStride` / 4 and the `SetupVAOAttribs` offsets). */
  const VERTEX_FLOATS: nat := 12
  const VERTEX_BYTES: nat := 48
  const POSITION_OFFSET: nat := 0
  const NORMAL_OFFSET: nat := 3
  const TEXCOORD_OFFSET: nat := 6
  const COLOR_OFFSET: nat := 8

  /** `GLTypeSize`: bytes per element; every type it does not know counts as
      four bytes. */
  function TypeSize(t: nat): (r: int)
    ensures 1 <= r <= 4
    ensures r == 1 <==> t == UNSIGNED_BYTE
    ensures r == 2 <==> t == SHORT || t == UNSIGNED_SHORT
    ensures t != UNSIGNED_BYTE && t != SHORT && t != UNSIGNED_SHORT ==> r == 4
  {
    if t == FLOAT then 4
    else if t == UNSIGNED_SHORT then 2
    else if t == UNSIGNED_INT then 4
    else if t == UNSIGNED_BYTE then 1
    else if t == SHORT then 2
    else if t == INT then 4
    else 4
  }

  /** The byte distance between consecutive elements of a stream: the
      declared stride, or when it is 0 the tightly packed size, which for
      normals is always three components. */
  function StreamStride(arrays: ClientArrays, st: Stream): (r: int)
    ensures arrays.Get(st).stride != 0 ==> r == arrays.Get(st).stride
    ensures arrays.Get(st).stride == 0 && st == NormalStream ==> r == 3 * TypeSize(arrays.Get(st).elemType)
    ensures arrays.Get(st).stride == 0 && st != NormalStream ==> r == arrays.Get(st).size * TypeSize(arrays.Get(st).elemType)
  {
    var a := arrays.Get(st);
    if a.stride != 0 then a.stride
    else (if st == NormalStream then 3 else a.size) * TypeSize(a.elemType)
  }

  /** `k` consecutive floats starting at byte address `addr`. */
  function ReadFloats(mem: Memory, addr: int, k: nat): (r: seq<real>)
    ensures |r| == k
    ensures forall j | 0 <= j < k :: r[j] == mem(addr + 4 * j)
  {
    seq(k, j => mem(addr + 4 * j))
  }

  /** Whether a stream supplies data to the packer: the position stream
      whenever its pointer is set (its enable flag is never consulted), the
      other three only when their pointer is set and they are enabled. */
  predicate Feeds(arrays: ClientArrays, st: Stream) {
    arrays.Get(st).pointer.Some? && (st == VertexStream || arrays.Get(st).enabled)
  }

  /** The `k` floats of element `i` of a stream with a pointer. */
  function Element(arrays: ClientArrays, st: Stream, mem: Memory, i: int, k: nat): (r: seq<real>)
    requires arrays.Get(st).pointer.Some?
    ensures |r| == k
    ensures forall j | 0 <= j < k ::
      r[j] == mem(arrays.Get(st).pointer.value + i * StreamStride(arrays, st) + 4 * j)
  {
    ReadFloats(mem, arrays.Get(st).pointer.value + i * StreamStride(arrays, st), k)
  }

  /** Vertex `i` as the packing loop writes it, with the defaults for the
      streams that do not feed it: position 0, normal (0,0,1), texture
      coordinate (0,0) and the current colour. */
  function PackVertex(arrays: ClientArrays, color: Vec4, mem: Memory, i: int): (v: Vertex)
    ensures Feeds(arrays, VertexStream) <==> arrays.vertex.pointer.Some?
    ensures arrays.vertex.pointer.Some? ==> v.position == Element(arrays, VertexStream, mem, i, 3)
    ensures arrays.vertex.pointer.None? ==> v.position == [0.0, 0.0, 0.0]
    ensures Feeds(arrays, NormalStream) <==> arrays.normal.pointer.Some? && arrays.normal.enabled
    ensures Feeds(arrays, NormalStream) ==> v.normal == Element(arrays, NormalStream, mem, i, 3)
    ensures !Feeds(arrays, NormalStream) ==> v.normal == [0.0, 0.0, 1.0]
    ensures Feeds(arrays, TexCoordStream) <==> arrays.texCoord.pointer.Some? && arrays.texCoord.enabled
    ensures Feeds(arrays, TexCoordStream) ==> v.texcoord == Element(arrays, TexCoordStream, mem, i, 2)
    ensures !Feeds(arrays, TexCoordStream) ==> v.texcoord == [0.0, 0.0]
    ensures Feeds(arrays, ColorStream) <==> arrays.color.pointer.Some? && arrays.color.enabled
    ensures Feeds(arrays, ColorStream) ==> v.color == Element(arrays, ColorStream, mem, i, 4)
    ensures !Feeds(arrays, ColorStream) ==> v.color == color
  {
    Vertex(
      if Feeds(arrays, VertexStream) then Element(arrays, VertexStream, mem, i, 3) else [0.0, 0.0, 0.0],
      if Feeds(arrays, NormalStream) then Element(arrays, NormalStream, mem, i, 3) else [0.0, 0.0, 1.0],
      if Feeds(arrays, TexCoordStream) then Element(arrays, TexCoordStream, mem, i, 2) else [0.0, 0.0],
      if Feeds(arrays, ColorStream) then Element(arrays, ColorStream, mem, i, 4) else color)
  }

  /** The vertices `UploadClientArrays(n)` packs; none when `n` is not
      positive. */
  function Pack(arrays: ClientArrays, color: Vec4, mem: Memory, n: int): (r: seq<Vertex>)
    ensures n <= 0 ==> r == []
    ensures n > 0 ==> |r| == n
    ensures forall i | 0 <= i < |r| :: r[i] == PackVertex(arrays, color, mem, i)
  {
    if n <= 0 then [] else seq(n, i => PackVertex(arrays, color, mem, i))
  }

  /** The 12 floats of one vertex in layout order. */
  function VertexFloats(v: Vertex): (r: seq<real>)
    ensures |r| == VERTEX_FLOATS
    ensures r[POSITION_OFFSET..NORMAL_OFFSET] == v.position && r[NORMAL_OFFSET..TEXCOORD_OFFSET] == v.normal
    ensures r[TEXCOORD_OFFSET..COLOR_OFFSET] == v.texcoord && r[COLOR_OFFSET..VERTEX_FLOATS] == v.color
  {
    v.position + v.normal + v.texcoord + v.color
  }

  /** The interleaved buffer holding `vs`. */
  function Flatten(vs: seq<Vertex>): (r: seq<real>)
    ensures |r| == VERTEX_FLOATS * |vs|
    decreases |vs|
  {
    if |vs| == 0 then [] else Flatten(vs[..|vs| - 1]) + VertexFloats(vs[|vs| - 1])
  }

  /** Vertex `i` occupies the 12 floats from `12 * i` on. */
  lemma {:induction false} FlattenSlice(vs: seq<Vertex>, i: nat)
    requires i < |vs|
    ensures Flatten(vs)[VERTEX_FLOATS * i .. VERTEX_FLOATS * i + VERTEX_FLOATS] == VertexFloats(vs[i])
    decreases |vs|
  {
    var init := vs[..|vs| - 1];
    var base := VERTEX_FLOATS * i;
    assert Flatten(vs) == Flatten(init) + VertexFloats(vs[|vs| - 1]);
    if i < |vs| - 1 {
      FlattenSlice(init, i);
      assert base + VERTEX_FLOATS <= |Flatten(init)|;
    }
  }

  /** The attribute layout `SetupVAOAttribs` declares matches the buffer:
      vertex `i` starts at float `12 * i`, and its position, normal, texture
      coordinate and colour sit at offsets 0, 3, 6 and 8. */
  lemma FlattenLayout(vs: seq<Vertex>, i: nat)
    requires i < |vs|
    ensures Flatten(vs)[VERTEX_FLOATS * i + POSITION_OFFSET .. VERTEX_FLOATS * i + NORMAL_OFFSET] == vs[i].position
    ensures Flatten(vs)[VERTEX_FLOATS * i + NORMAL_OFFSET .. VERTEX_FLOATS * i + TEXCOORD_OFFSET] == vs[i].normal
    ensures Flatten(vs)[VERTEX_FLOATS * i + TEXCOORD_OFFSET .. VERTEX_FLOATS * i + COLOR_OFFSET] == vs[i].texcoord
    ensures Flatten(vs)[VERTEX_FLOATS * i + COLOR_OFFSET .. VERTEX_FLOATS * i + VERTEX_FLOATS] == vs[i].color
  {
    var f := Flatten(vs);
    var base := VERTEX_FLOATS * i;
    FlattenSlice(vs, i);
    var w := VertexFloats(vs[i]);
    SliceOfSlice(f, base, base + VERTEX_FLOATS, POSITION_OFFSET, NORMAL_OFFSET);
    SliceOfSlice(f, base, base + VERTEX_FLOATS, NORMAL_OFFSET, TEXCOORD_OFFSET);
    SliceOfSlice(f, base, base + VERTEX_FLOATS, TEXCOORD_OFFSET, COLOR_OFFSET);
    SliceOfSlice(f, base, base + VERTEX_FLOATS, COLOR_OFFSET, VERTEX_FLOATS);
  }

  lemma SliceOfSlice(f: seq<real>, lo: int, hi: int, a: int, b: int)
    requires 0 <= lo <= hi <= |f| && 0 <= a <= b <= hi - lo
    ensures f[lo..hi][a..b] == f[lo + a..lo + b]
  {
    assert forall k | 0 <= k < b - a :: f[lo..hi][a..b][k] == f[lo + a + k];
  }

  /** The packing loop of `UploadClientArrays`, writing 12 floats per
      vertex into the scratch buffer. */
  method PackBuffer(arrays: ClientArrays, color: Vec4, mem: Memory, n: int) returns (buf: seq<real>)
    ensures buf == Flatten(Pack(arrays, color, mem, n))
    ensures n > 0 ==> |buf| == VERTEX_FLOATS * n
  {
    buf := [];
    var bound := if n > 0 then n else 0;
    var i := 0;
    while i < bound
      invariant 0 <= i <= bound
      invariant buf == Flatten(Pack(arrays, color, mem, i))
    {
      var v := PackVertex(arrays, color, mem, i);
      PackPrefix(arrays, color, mem, i, i + 1);
      assert Pack(arrays, color, mem, i + 1)[..i] == Pack(arrays, color, mem, i);
      buf := buf + VertexFloats(v);
      i := i + 1;
    }
  }

  /** Packing fewer vertices gives a prefix of packing more. */
  lemma PackPrefix(arrays: ClientArrays, color: Vec4, mem: Memory, m: int, n: int)
    requires 0 <= m <= n
    ensures Pack(arrays, color, mem, n)[..m] == Pack(arrays, color, mem, m)
  {
  }

  /** The colour of every packed vertex comes from the colour array exactly
      when it is enabled and bound; otherwise every vertex carries the
      current colour. */
  lemma PackColors(arrays: ClientArrays, color: Vec4, mem: Memory, n: int, i: int)
    requires 0 <= i < n
    ensures Feeds(arrays, ColorStream) ==>
      Pack(arrays, color, mem, n)[i].color
        == ReadFloats(mem, arrays.color.pointer.value + i * StreamStride(arrays, ColorStream), 4)
    ensures !Feeds(arrays, ColorStream) ==> Pack(arrays, color, mem, n)[i].color == color
  {
  }

  /** The normal of every packed vertex comes from the normal array exactly
      when it is enabled and bound; otherwise it is (0, 0, 1). */
  lemma PackNormals(arrays: ClientArrays, color: Vec4, mem: Memory, n: int, i: int)
    requires 0 <= i < n
    ensures arrays.normal.enabled && arrays.normal.pointer.Some? ==>
      Pack(arrays, color, mem, n)[i].normal
        == ReadFloats(mem, arrays.normal.pointer.value + i * StreamStride(arrays, NormalStream), 3)
    ensures !(arrays.normal.enabled && arrays.normal.pointer.Some?) ==>
      Pack(arrays, color, mem, n)[i].normal == [0.0, 0.0, 1.0]
  {
  }

  /** The texture coordinate of every packed vertex comes from the
      texture-coordinate array exactly when it is enabled and bound;
      otherwise it is (0, 0). */
  lemma PackTexCoords(arrays: ClientArrays, color: Vec4, mem: Memory, n: int, i: int)
    requires 0 <= i < n
    ensures arrays.texCoord.enabled && arrays.texCoord.pointer.Some? ==>
      Pack(arrays, color, mem, n)[i].texcoord
        == ReadFloats(mem, arrays.texCoord.pointer.value + i * StreamStride(arrays, TexCoordStream), 2)
    ensures !(arrays.texCoord.enabled && arrays.texCoord.pointer.Some?) ==>
      Pack(arrays, color, mem, n)[i].texcoord == [0.0, 0.0]
  {
  }

  /** The position of every packed vertex comes from the vertex array
      whenever its pointer is set, enabled or not; otherwise it is the
      origin. */
  lemma PackPositions(arrays: ClientArrays, color: Vec4, mem: Memory, n: int, i: int)
    requires 0 <= i < n
    ensures arrays.vertex.pointer.Some? ==>
      Pack(arrays, color, mem, n)[i].position
        == ReadFloats(mem, arrays.vertex.pointer.value + i * StreamStride(arrays, VertexStream), 3)
    ensures arrays.vertex.pointer.None? ==> Pack(arrays, color, mem, n)[i].position == [0.0, 0.0, 0.0]
  {
  }

  /** With no stream feeding the packer every vertex is the default one. */
  lemma PackDefaults(arrays: ClientArrays, color: Vec4, mem: Memory, n: int)
    requires forall st: Stream :: !Feeds(arrays, st)
    ensures forall v | v in Pack(arrays, color, mem, n) ::
      v == Vertex([0.0, 0.0, 0.0], [0.0, 0.0, 1.0], [0.0, 0.0], color)
  {
    assert !Feeds(arrays, VertexStream) && !Feeds(arrays, NormalStream);
    assert !Feeds(arrays, TexCoordStream) && !Feeds(arrays, ColorStream);
  }

  /** The position stream's enable flag never changes what is packed. */
  lemma PositionIgnoresEnable(arrays: ClientArrays, color: Vec4, mem: Memory, n: int, on: bool)
    ensures Pack(arrays.(vertex := arrays.vertex.(enabled := on)), color, mem, n) == Pack(arrays, color, mem, n)
  {
    var a := arrays.(vertex := arrays.vertex.(enabled := on));
    assert forall st: Stream :: Feeds(a, st) == Feeds(arrays, st) && StreamStride(a, st) == StreamStride(arrays, st);
  }

  /** The pointer advance of `bridge_DrawArrays` for a positive `first`:
      every bound pointer moves `first` elements ahead. */
  function Shift(arrays: ClientArrays, first: int): (r: ClientArrays)
    ensures forall st: Stream ::
      && r.Get(st) == arrays.Get(st).(pointer := r.Get(st).pointer)
      && (arrays.Get(st).pointer.None? ==> r.Get(st).pointer.None?)
      && (arrays.Get(st).pointer.Some? ==>
            r.Get(st).pointer == Some(arrays.Get(st).pointer.value + first * StreamStride(arrays, st)))
  {
    ClientArrays(
      ShiftOne(arrays, VertexStream, first),
      ShiftOne(arrays, NormalStream, first),
      ShiftOne(arrays, ColorStream, first),
      ShiftOne(arrays, TexCoordStream, first))
  }

  function ShiftOne(arrays: ClientArrays, st: Stream, first: int): ClientArray {
    var a := arrays.Get(st);
    match a.pointer
    case None => a
    case Some(p) => a.(pointer := Some(p + first * StreamStride(arrays, st)))
  }

  /** Drawing `count` vertices from `first` on reads the same vertices as
      the tail of drawing `first + count` from the start. */
  lemma PackShift(arrays: ClientArrays, color: Vec4, mem: Memory, first: int, count: int)
    requires first >= 0 && count >= 0
    ensures Pack(Shift(arrays, first), color, mem, count) == Pack(arrays, color, mem, first + count)[first..]
  {
    var shifted := Shift(arrays, first);
    var l := Pack(shifted, color, mem, count);
    var r := Pack(arrays, color, mem, first + count)[first..];
    assert |l| == |r|;
    forall i | 0 <= i < count ensures l[i] == r[i] {
      forall st: Stream | arrays.Get(st).pointer.Some?
        ensures Element(shifted, st, mem, i, 4) == Element(arrays, st, mem, first + i, 4)
      {
        var p := arrays.Get(st).pointer.value;
        var s := StreamStride(arrays, st);
        assert StreamStride(shifted, st) == s;
        assert p + first * s + i * s == p + (first + i) * s by {
          assert first * s + i * s == (first + i) * s;
        }
      }
      ShiftedVertex(arrays, color, mem, first, i);
    }
  }

  /** One vertex of `PackShift`. */
  lemma ShiftedVertex(arrays: ClientArrays, color: Vec4, mem: Memory, first: int, i: int)
    requires forall st: Stream | arrays.Get(st).pointer.Some? ::
      Element(Shift(arrays, first), st, mem, i, 4) == Element(arrays, st, mem, first + i, 4)
    ensures PackVertex(Shift(arrays, first), color, mem, i) == PackVertex(arrays, color, mem, first + i)
  {
    var shifted := Shift(arrays, first);
    forall st: Stream, k: nat | k <= 4 && arrays.Get(st).pointer.Some?
      ensures Element(shifted, st, mem, i, k) == Element(arrays, st, mem, first + i, k)
    {
      assert Element(shifted, st, mem, i, k) == Element(shifted, st, mem, i, 4)[..k];
      assert Element(arrays, st, mem, first + i, k) == Element(arrays, st, mem, first + i, 4)[..k];
    }
    assert forall st: Stream :: Feeds(shifted, st) == Feeds(arrays, st);
  }

  /** `HasVertexColors`: the value a draw from client arrays gives the
      shader's per-vertex-colour switch. */
  predicate HasVertexColors(arrays: ClientArrays): (r: bool)
    ensures r <==> Feeds(arrays, ColorStream)
  {
    arrays.color.enabled && arrays.color.pointer.Some?
  }

  /** A grow-only scratch buffer asked for `needed` bytes: when that exceeds
      the recorded capacity the old buffer is freed and a new one allocated
      (`ok`: whether malloc succeeded), and the capacity is recorded as
      `needed` even when the allocation failed; otherwise nothing changes. */
  function Grow(s: Scratch, needed: int, ok: bool): (r: Scratch)
    ensures r.capacity >= s.capacity && r.capacity >= needed
    ensures needed > s.capacity ==> r.capacity == needed && r.present == ok
    ensures needed <= s.capacity ==> r == s
  {
    if needed > s.capacity then Scratch(needed, ok) else s
  }

  /** A request no larger than an earlier one reuses the buffer as it is,
      including a failed allocation: the scratch buffer stays absent until
      a larger request comes. */
  lemma GrowReuses(s: Scratch, a: int, b: int, ok1: bool, ok2: bool)
    requires b <= a
    ensures Grow(Grow(s, a, ok1), b, ok2) == Grow(s, a, ok1)
    ensures !Grow(s, a, ok1).present ==> !Grow(Grow(s, a, ok1), b, ok2).present
  {
  }

  /** The truncating conversion `(int)idx[i]` of one index of the given
      type: 8- and 16-bit indices keep their value, 32-bit indices are
      reinterpreted as signed, so those of 2^31 and above become negative. */
  function IndexValue(t: nat, raw: nat): (r: int)
    ensures t == UNSIGNED_BYTE ==> 0 <= r < 0x100
    ensures t == UNSIGNED_SHORT ==> 0 <= r < 0x1_0000
    ensures t == UNSIGNED_INT ==> -0x8000_0000 <= r < 0x8000_0000
    ensures t == UNSIGNED_INT && raw < 0x8000_0000 ==> r == raw
    ensures t == UNSIGNED_BYTE && raw < 0x100 ==> r == raw
    ensures t == UNSIGNED_SHORT && raw < 0x1_0000 ==> r == raw
    ensures t == UNSIGNED_INT && 0x8000_0000 <= raw < 0x1_0000_0000 ==> r == raw - 0x1_0000_0000
  {
    if t == UNSIGNED_BYTE then raw % 0x100
    else if t == UNSIGNED_SHORT then raw % 0x1_0000
    else
      var w := raw % 0x1_0000_0000;
      if w >= 0x8000_0000 then w - 0x1_0000_0000 else w
  }

  /** The index types `MaxIndex` reads; for any other type it reads nothing. */
  predicate IndexType(t: nat) {
    t == UNSIGNED_BYTE || t == UNSIGNED_SHORT || t == UNSIGNED_INT
  }

  /** The largest of 0 and the first `n` converted indices. */
  function Largest(t: nat, indices: seq<nat>, n: nat): (r: int)
    requires n <= |indices|
    ensures r >= 0
    ensures forall i | 0 <= i < n :: IndexValue(t, indices[i]) <= r
    ensures r == 0 || exists i | 0 <= i < n :: IndexValue(t, indices[i]) == r
  {
    if n == 0 then 0
    else
      var m := Largest(t, indices, n - 1);
      var v := IndexValue(t, indices[n - 1]);
      if v > m then v else m
  }

  /** The number of vertices an indexed draw packs: one more than the
      largest index read, at least 1, and exactly 1 for an index type
      `MaxIndex` does not know or a count that is not positive. */
  function VertexCount(t: nat, indices: seq<nat>, count: int): (r: int)
    requires count <= |indices|
    ensures r >= 1
    ensures !IndexType(t) || count <= 0 ==> r == 1
    ensures IndexType(t) ==> forall i | 0 <= i < count :: IndexValue(t, indices[i]) < r
    ensures r == 1 || exists i | 0 <= i < count :: IndexValue(t, indices[i]) == r - 1
  {
    if IndexType(t) && count > 0 then Largest(t, indices, count) + 1 else 1
  }

  /** `MaxIndex`: the scan over the first `count` indices. */
  method MaxIndex(indices: seq<nat>, count: int, t: nat) returns (n: int)
    requires count <= |indices|
    ensures n == VertexCount(t, indices, count)
  {
    var maxIdx := 0;
    if IndexType(t) {
      var bound := if count > 0 then count else 0;
      var i := 0;
      while i < bound
        invariant 0 <= i <= bound
        invariant maxIdx == Largest(t, indices, i)
      {
        var v := IndexValue(t, indices[i]);
        if v > maxIdx {
          maxIdx := v;
        }
        i := i + 1;
      }
    }
    n := maxIdx + 1;
  }

  /** A quad as two triangles over four vertices. */
  lemma QuadIndices()
    ensures VertexCount(UNSIGNED_SHORT, [0, 1, 2, 0, 2, 3], 6) == 4
  {
    var idx: seq<nat> := [0, 1, 2, 0, 2, 3];
    assert IndexValue(UNSIGNED_SHORT, idx[3]) == 0;
    assert Largest(UNSIGNED_SHORT, idx, 4) == 2;
    assert IndexValue(UNSIGNED_SHORT, idx[5]) == 3;
  }

  /** A 32-bit index of 2^31 or more is read as negative and never raises
      the vertex count. */
  lemma HighUnsignedIndexIgnored()
    ensures VertexCount(UNSIGNED_INT, [0x8000_0000], 1) == 1
  {
    assert IndexValue(UNSIGNED_INT, 0x8000_0000) == -0x8000_0000;
  }
}
