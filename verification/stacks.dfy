/** The bounded matrix stacks of the bridge (src/Android/GLESBridge.c,
    `MatrixStack` and `MatStack_*`): 32 fixed slots and the index of the top.
    Slots above the top keep whatever they last held, as in the C array; only
    `Push` writes them, and it writes the slot before the top moves onto it. */
module MatrixStacks {
  import opened Matrix

  /** `MATRIX_STACK_DEPTH` */
  const DEPTH: nat := 32

  datatype MatrixStack = MatrixStack(slots: seq<Mat4>, top: int) {

    predicate Valid() {
      |slots| == DEPTH && 0 <= top < DEPTH
    }

    /** The matrix every operation on this stack reads or writes. */
    function Top(): Mat4
      requires Valid()
    {
      slots[top]
    }

    /** The matrices below and at the top: the part of the stack a sequence
        of pushes and pops can reach again. */
    function Live(): seq<Mat4>
      requires Valid()
    {
      slots[..top + 1]
    }

    /** Overwrites the top matrix, leaving every other slot and the depth as
        they were. */
    function SetTop(m: Mat4): (r: MatrixStack)
      requires Valid()
      ensures r.Valid() && r.top == top && r.Top() == m
      ensures forall i | 0 <= i < DEPTH && i != top :: r.slots[i] == slots[i]
    {
      this.(slots := slots[top := m])
    }

    /** `MatStack_Push`: a no-op when the stack is full; otherwise the top is
        copied into the next slot, which becomes the top. */
    function Push(): (r: MatrixStack)
      requires Valid()
      ensures r.Valid()
      ensures top + 1 >= DEPTH ==> r == this
      ensures top + 1 < DEPTH ==> r.top == top + 1 && r.Top() == Top() && r.Live() == Live() + [Top()]
    {
      if top + 1 >= DEPTH then this
      else MatrixStack(slots[top + 1 := slots[top]], top + 1)
    }

    /** `MatStack_Pop`: a no-op on a stack holding only its bottom matrix;
        otherwise the top moves down by one and no slot changes. */
    function Pop(): (r: MatrixStack)
      requires Valid()
      ensures r.Valid()
      ensures top <= 0 ==> r == this
      ensures top > 0 ==> r.top == top - 1 && r.slots == slots && r.Live() == Live()[..top]
    {
      if top <= 0 then this
      else this.(top := top - 1)
    }

    /** `MatStack_Init`: the bottom slot becomes the identity and is the top;
        the other slots keep their old contents. */
    function Reset(): (r: MatrixStack)
      requires |slots| == DEPTH
      ensures r.Valid() && r.top == 0 && r.Top() == Identity() && r.Live() == [Identity()]
      ensures r.slots[1..] == slots[1..]
    {
      MatrixStack(slots[0 := Identity()], 0)
    }
  }

  /** A stack whose every slot is zero, as a zero-initialised static stack is
      before `MatStack_Init` runs. */
  function ZeroStack(): (r: MatrixStack)
    ensures r.Valid() && r.top == 0
  {
    MatrixStack(seq(DEPTH, _ => seq(16, _ => 0.0)), 0)
  }

  /** A push that does not overflow, followed by a pop, restores the depth, the
      top matrix and every matrix below it. */
  lemma PushPop(s: MatrixStack)
    requires s.Valid() && s.top + 1 < DEPTH
    ensures s.Push().Pop().top == s.top
    ensures s.Push().Pop().Top() == s.Top()
    ensures s.Push().Pop().Live() == s.Live()
  {
  }

  /** One call on the active stack, as the matrix entry points of the bridge
      issue them. */
  datatype StackOp = PushOp | PopOp | LoadOp(m: Mat4) | MultOp(m: Mat4)

  function Apply(s: MatrixStack, op: StackOp): (r: MatrixStack)
    requires s.Valid()
    ensures r.Valid()
  {
    match op
    case PushOp => s.Push()
    case PopOp => s.Pop()
    case LoadOp(m) => s.SetTop(m)
    case MultOp(m) => s.SetTop(Mul(s.Top(), m))
  }

  /** The stack after issuing `ops` in order. */
  function Run(s: MatrixStack, ops: seq<StackOp>): (r: MatrixStack)
    requires s.Valid()
    ensures r.Valid()
    decreases |ops|
  {
    if |ops| == 0 then s else Apply(Run(s, ops[..|ops| - 1]), ops[|ops| - 1])
  }

  /** Pushes minus pops in `ops`. */
  function Depth(ops: seq<StackOp>): int
    decreases |ops|
  {
    if |ops| == 0 then 0
    else Depth(ops[..|ops| - 1]) + (match ops[|ops| - 1] case PushOp => 1 case PopOp => -1 case _ => 0)
  }

  /** `ops` is a sequence of properly nested push/pop brackets that never
      nests deeper than `room` and never loads or multiplies outside a bracket. */
  ghost predicate Bracketed(ops: seq<StackOp>, room: int) {
    && (forall k | 0 < k <= |ops| :: 0 <= Depth(ops[..k]) <= room)
    && (forall k | 0 <= k < |ops| && (ops[k].LoadOp? || ops[k].MultOp?) :: Depth(ops[..k]) > 0)
    && Depth(ops) == 0
  }

  /** While a prefix of bracketed calls runs, the top sits `Depth` slots above
      where it started and the slots up to the starting top are untouched. */
  lemma {:induction false} BracketedPrefix(s: MatrixStack, ops: seq<StackOp>, n: nat)
    requires s.Valid() && Bracketed(ops, DEPTH - 1 - s.top) && n <= |ops|
    ensures Run(s, ops[..n]).top == s.top + Depth(ops[..n])
    ensures Run(s, ops[..n]).slots[..s.top + 1] == s.slots[..s.top + 1]
  {
    if n == 0 {
      assert ops[..0] == [];
    } else {
      BracketedPrefix(s, ops, n - 1);
      var pre := ops[..n - 1];
      assert ops[..n][..n - 1] == pre;
      assert ops[..n][n - 1] == ops[n - 1];
      var before := Run(s, pre);
      assert Run(s, ops[..n]) == Apply(before, ops[n - 1]);
      assert Depth(ops[..n]) == Depth(pre) + (match ops[n - 1] case PushOp => 1 case PopOp => -1 case _ => 0);
      if n - 1 > 0 {
        assert 0 <= Depth(pre) <= DEPTH - 1 - s.top;
      } else {
        assert pre == [];
      }
      assert 0 <= Depth(ops[..n]) <= DEPTH - 1 - s.top;
    }
  }

  /** Issuing properly nested push/pop brackets that fit in the stack leaves
      the depth, the top matrix and everything below it as they were,
      whatever the brackets load or multiply inside. */
  lemma {:induction false} BracketedRunRestores(s: MatrixStack, ops: seq<StackOp>)
    requires s.Valid() && Bracketed(ops, DEPTH - 1 - s.top)
    ensures Run(s, ops).Live() == s.Live()
    ensures Run(s, ops).Top() == s.Top()
  {
    BracketedPrefix(s, ops, |ops|);
    assert ops[..|ops|] == ops;
  }
}
