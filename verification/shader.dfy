/** The alpha test of the emulating fragment shader (src/Android/GLESBridge.c,
    the `u_alphaTestEnabled` block of the fragment shader source): the
    comparison token uploaded by the state flush selects one comparison of
    the fragment's alpha with the reference value, and a fragment that fails
    it is discarded. */
module AlphaShader {
  import opened Common
  import opened Tokens
  import opened BridgeState
  import opened Draw

  /** The shader's if-chain on the uploaded token: GL_ALWAYS first, then
      GL_NEVER and the six comparisons in token order; a token that matches
      none of them lets the fragment pass. */
  function AlphaPasses(func: nat, a: real, ref: real): (r: bool)
    ensures func == ALWAYS ==> r
    ensures func == NEVER ==> !r
    ensures ComparisonOf(func).None? ==> r
  {
    if func == 0x0207 then true
    else if func == 0x0200 then false
    else if func == 0x0201 then a < ref
    else if func == 0x0202 then a == ref
    else if func == 0x0203 then a <= ref
    else if func == 0x0204 then a > ref
    else if func == 0x0205 then a != ref
    else if func == 0x0206 then a >= ref
    else true
  }

  /** The comparison each `glAlphaFunc` function names: the fragment passes
      when its alpha stands in that relation to the reference value. */
  function Compare(c: Comparison, a: real, ref: real): (r: bool)
    ensures c == Always ==> r
    ensures c == Never ==> !r
  {
    match c
    case Never => false
    case Less => a < ref
    case Equal => a == ref
    case LEqual => a <= ref
    case Greater => a > ref
    case NotEqual => a != ref
    case GEqual => a >= ref
    case Always => true
  }

  /** The shader implements every comparison function on its token. */
  lemma AlphaAgrees(c: Comparison, a: real, ref: real)
    ensures AlphaPasses(ComparisonToken(c), a, ref) == Compare(c, a, ref)
  {
  }

  /** A token outside GL_NEVER .. GL_ALWAYS, which `AlphaFunc` stores
      without checking, never discards a fragment. */
  lemma UnknownTokenPasses(func: nat, a: real, ref: real)
    requires ComparisonOf(func).None?
    ensures AlphaPasses(func, a, ref)
  {
  }

  /** The three complementary pairs of comparisons: exactly one of each
      pair lets a fragment pass. */
  lemma ComplementaryPairs(a: real, ref: real)
    ensures AlphaPasses(LESS, a, ref) == !AlphaPasses(GEQUAL, a, ref)
    ensures AlphaPasses(EQUAL, a, ref) == !AlphaPasses(NOTEQUAL, a, ref)
    ensures AlphaPasses(LEQUAL, a, ref) == !AlphaPasses(GREATER, a, ref)
    ensures AlphaPasses(NEVER, a, ref) == !AlphaPasses(ALWAYS, a, ref)
  {
  }

  /** With GL_GREATER against 0.5, a fragment of alpha 0.4 is discarded and
      one of alpha 0.6 is kept. */
  lemma GreaterHalf()
    ensures !AlphaPasses(GREATER, 0.4, 0.5)
    ensures AlphaPasses(GREATER, 0.6, 0.5)
  {
  }

  /** Whether the shader keeps a fragment of alpha `a` under the uniforms of
      one flush. */
  function Kept(u: Uniforms, a: real): bool {
    match u.alphaTest
    case None => !u.alphaTestEnabled
    case Some(t) => !u.alphaTestEnabled || AlphaPasses(t.func, a, t.ref)
  }

  /** After a flush the shader discards exactly the fragments the stored
      alpha test rejects: none while the test is off, and for a known
      comparison those for which the comparison fails. */
  lemma FlushedAlphaTest(s: Bridge, a: real)
    requires s.Valid()
    ensures !s.alphaTest.enabled ==> Kept(UniformsOf(s), a)
    ensures s.alphaTest.enabled && ComparisonOf(s.alphaTest.func).Some? ==>
      Kept(UniformsOf(s), a) == Compare(ComparisonOf(s.alphaTest.func).value, a, s.alphaTest.ref)
  {
    if s.alphaTest.enabled && ComparisonOf(s.alphaTest.func).Some? {
      var c := ComparisonOf(s.alphaTest.func).value;
      ComparisonRoundTrip(c, s.alphaTest.func);
      AlphaAgrees(c, a, s.alphaTest.ref);
    }
  }
}
