/** The part of the compiler's program representation the pass touches: the instructions
    of one function, grouped in basic blocks, their operand slots, and the two mutation
    primitives the pass uses, "insert after" and "replace all uses with". Instructions are
    named by ids; an operand slot that reads an instruction's result holds `Def(id)`. */
module IR {
  import opened PowerOfTwo

  type InstId = nat

  /** The operation kinds the pass tells apart; every other opcode is `Other`. */
  datatype Opcode = Mul | Shl | Add | Other

  /** The content of an operand slot. `Const` is an integer constant of bit width `width`
      holding its sign-extended value; `Def` is the result of an instruction of the same
      function; `Arg` is any other value (a function argument, a global, a constant that
      is not an integer). */
  datatype Operand = Const(width: nat, value: int) | Def(id: InstId) | Arg(index: nat)

  datatype Inst = Inst(id: InstId, op: Opcode, args: seq<Operand>)

  /** Operand slot `arg` of the instruction at position `pos` of block `block`. */
  datatype Slot = Slot(block: nat, pos: nat, arg: nat)

  /** The instructions of a function, block by block, with the first id never handed out. */
  datatype Body = Body(blocks: seq<seq<Inst>>, nextId: InstId)

  predicate IsBinary(op: Opcode) {
    op == Mul || op == Shl || op == Add
  }

  /** An integer constant's value is in its type's signed range, and, as `getSExtValue`
      demands, in the range of a signed 64-bit integer. */
  predicate ConstFits(o: Operand) {
    o.Const? ==>
      && 1 <= o.width
      && -(Pow2(o.width - 1) as int) <= o.value < Pow2(o.width - 1)
      && -0x8000_0000_0000_0000 <= o.value < 0x8000_0000_0000_0000
  }

  /** An integer constant fits its type; an instruction operand names an existing id. */
  predicate OperandOk(o: Operand, nextId: InstId) {
    ConstFits(o) && (o.Def? ==> o.id < nextId)
  }

  predicate InstOk(x: Inst, nextId: InstId) {
    && x.id < nextId
    && (IsBinary(x.op) ==> |x.args| == 2)
    && (forall a | 0 <= a < |x.args| :: OperandOk(x.args[a], nextId))
  }

  /** Every instruction has an id below `nextId` and reads only ids below it, binary
      operators have two operands, integer constants fit their type. */
  predicate WellFormed(st: Body) {
    forall b, p | 0 <= b < |st.blocks| && 0 <= p < |st.blocks[b]| :: InstOk(st.blocks[b][p], st.nextId)
  }

  /** `s` with `x` placed at index `k`. */
  function InsertAt<T>(s: seq<T>, k: nat, x: T): (r: seq<T>)
    requires k <= |s|
    ensures |r| == |s| + 1 && r[k] == x
    ensures r[..k] == s[..k] && r[k + 1..] == s[k..]
  {
    s[..k] + [x] + s[k..]
  }

  /** `s` without its element at index `k`. */
  function RemoveAt<T>(s: seq<T>, k: nat): (r: seq<T>)
    requires k < |s|
    ensures |r| == |s| - 1
  {
    s[..k] + s[k + 1..]
  }

  lemma RemoveInsert<T>(s: seq<T>, k: nat, x: T)
    requires k <= |s|
    ensures RemoveAt(InsertAt(s, k, x), k) == s
  {
    var r := InsertAt(s, k, x);
    assert r[..k] + r[k + 1..] == s[..k] + s[k..];
    assert s[..k] + s[k..] == s;
  }

  // ---------------------------------------------------------------------------
  // Replacing all uses

  function RedirectOperand(o: Operand, from: InstId, to: InstId): Operand {
    if o == Def(from) then Def(to) else o
  }

  function RedirectInst(x: Inst, from: InstId, to: InstId): Inst {
    x.(args := seq(|x.args|, a requires 0 <= a < |x.args| => RedirectOperand(x.args[a], from, to)))
  }

  function RedirectBlock(s: seq<Inst>, from: InstId, to: InstId): seq<Inst> {
    seq(|s|, p requires 0 <= p < |s| => RedirectInst(s[p], from, to))
  }

  /** Every operand slot of every instruction that reads `from` reads `to` instead. */
  function Redirect(bs: seq<seq<Inst>>, from: InstId, to: InstId): seq<seq<Inst>> {
    seq(|bs|, b requires 0 <= b < |bs| => RedirectBlock(bs[b], from, to))
  }

  /** The uses of instruction `v`: the operand slots that read its result. */
  ghost function Uses(bs: seq<seq<Inst>>, v: InstId): set<Slot> {
    set b, p, a | 0 <= b < |bs| && 0 <= p < |bs[b]| && 0 <= a < |bs[b][p].args| && bs[b][p].args[a] == Def(v)
      :: Slot(b, p, a)
  }

  /** No operand slot reads `v`. */
  ghost predicate Unused(bs: seq<seq<Inst>>, v: InstId) {
    forall b, p, a | 0 <= b < |bs| && 0 <= p < |bs[b]| && 0 <= a < |bs[b][p].args| :: bs[b][p].args[a] != Def(v)
  }

  lemma UnusedIffNoUses(bs: seq<seq<Inst>>, v: InstId)
    ensures Unused(bs, v) <==> Uses(bs, v) == {}
  {
    if !Unused(bs, v) {
      var b, p, a :| 0 <= b < |bs| && 0 <= p < |bs[b]| && 0 <= a < |bs[b][p].args| && bs[b][p].args[a] == Def(v);
      assert Slot(b, p, a) in Uses(bs, v);
    }
  }

  /** replaceAllUsesWith: afterwards `from` has no uses, `to` has its own uses and those
      `from` had, and every other value keeps exactly the uses it had. Nothing moves. */
  lemma RedirectUses(bs: seq<seq<Inst>>, from: InstId, to: InstId, v: InstId)
    requires from != to
    ensures Uses(Redirect(bs, from, to), from) == {}
    ensures Uses(Redirect(bs, from, to), to) == Uses(bs, to) + Uses(bs, from)
    ensures v != from && v != to ==> Uses(Redirect(bs, from, to), v) == Uses(bs, v)
  {
    var rs := Redirect(bs, from, to);
    RedirectClears(bs, from, to);
    UnusedIffNoUses(rs, from);
    forall s | s in Uses(rs, to) ensures s in Uses(bs, to) + Uses(bs, from) {
      assert bs[s.block][s.pos].args[s.arg] in {Def(from), Def(to)};
    }
    forall s | s in Uses(bs, to) + Uses(bs, from) ensures s in Uses(rs, to) {
      assert rs[s.block][s.pos].args[s.arg] == Def(to);
    }
    if v != from && v != to {
      forall s | s in Uses(rs, v) ensures s in Uses(bs, v) {
        assert bs[s.block][s.pos].args[s.arg] == Def(v);
      }
      forall s | s in Uses(bs, v) ensures s in Uses(rs, v) {
        assert rs[s.block][s.pos].args[s.arg] == Def(v);
      }
    }
  }

  /** Redirection keeps an unused value unused, unless it is the new target. */
  lemma RedirectKeepsUnused(bs: seq<seq<Inst>>, from: InstId, to: InstId, v: InstId)
    requires Unused(bs, v) && v != to
    ensures Unused(Redirect(bs, from, to), v)
  {
  }

  /** Redirection leaves `from` unused. */
  lemma RedirectClears(bs: seq<seq<Inst>>, from: InstId, to: InstId)
    requires from != to
    ensures Unused(Redirect(bs, from, to), from)
  {
  }

  /** An id not handed out yet has no uses. */
  lemma FreshUnused(st: Body, v: InstId)
    requires WellFormed(st) && st.nextId <= v
    ensures Unused(st.blocks, v)
  {
    forall b, p, a | 0 <= b < |st.blocks| && 0 <= p < |st.blocks[b]| && 0 <= a < |st.blocks[b][p].args|
      ensures st.blocks[b][p].args[a] != Def(v)
    {
      assert InstOk(st.blocks[b][p], st.nextId);
      assert OperandOk(st.blocks[b][p].args[a], st.nextId);
    }
  }

  /** Redirecting the uses of an unused value changes nothing. */
  lemma RedirectUnused(bs: seq<seq<Inst>>, from: InstId, to: InstId)
    requires Unused(bs, from)
    ensures Redirect(bs, from, to) == bs
  {
    var rs := Redirect(bs, from, to);
    forall b | 0 <= b < |bs| ensures rs[b] == bs[b] {
      forall p | 0 <= p < |bs[b]| ensures rs[b][p] == bs[b][p] {
        assert rs[b][p].args == bs[b][p].args;
      }
    }
  }

  /** Redirection commutes with insertion of an instruction. */
  lemma RedirectInsert(s: seq<Inst>, k: nat, x: Inst, from: InstId, to: InstId)
    requires k <= |s|
    ensures RedirectBlock(InsertAt(s, k, x), from, to) == InsertAt(RedirectBlock(s, from, to), k, RedirectInst(x, from, to))
  {
    var l := RedirectBlock(InsertAt(s, k, x), from, to);
    var r := InsertAt(RedirectBlock(s, from, to), k, RedirectInst(x, from, to));
    forall p | 0 <= p < |l| ensures l[p] == r[p] {
      if p > k {
        assert InsertAt(s, k, x)[p] == s[p - 1];
      }
    }
  }

  /** Inserting an instruction that does not read `v` keeps `v` unused. */
  lemma InsertKeepsUnused(bs: seq<seq<Inst>>, b: nat, k: nat, x: Inst, v: InstId)
    requires b < |bs| && k <= |bs[b]| && Unused(bs, v)
    requires forall a | 0 <= a < |x.args| :: x.args[a] != Def(v)
    ensures Unused(bs[b := InsertAt(bs[b], k, x)], v)
  {
    var rs: seq<seq<Inst>> := bs[b := InsertAt(bs[b], k, x)];
    forall c, p, a | 0 <= c < |rs| && 0 <= p < |rs[c]| && 0 <= a < |rs[c][p].args|
      ensures rs[c][p].args[a] != Def(v)
    {
      if c == b && p > k {
        assert rs[c][p] == bs[b][p - 1];
      }
    }
  }

  // ---------------------------------------------------------------------------
  // What redirection cannot change

  /** An operand with the instruction it reads forgotten. */
  function Shape(o: Operand): Operand {
    if o.Def? then Def(0) else o
  }

  /** An instruction's id, opcode, operand count and constant and argument operands. */
  function Skeleton(x: Inst): Inst {
    x.(args := seq(|x.args|, a requires 0 <= a < |x.args| => Shape(x.args[a])))
  }

  function Skeletons(s: seq<Inst>): (r: seq<Inst>)
    ensures |r| == |s|
  {
    seq(|s|, p requires 0 <= p < |s| => Skeleton(s[p]))
  }

  lemma SkeletonsRedirect(s: seq<Inst>, from: InstId, to: InstId)
    ensures Skeletons(RedirectBlock(s, from, to)) == Skeletons(s)
  {
    var r := RedirectBlock(s, from, to);
    forall p | 0 <= p < |s| ensures Skeleton(r[p]) == Skeleton(s[p]) {
      assert Skeleton(r[p]).args == Skeleton(s[p]).args;
    }
  }

  lemma SkeletonsInsert(s: seq<Inst>, k: nat, x: Inst)
    requires k <= |s|
    ensures Skeletons(InsertAt(s, k, x)) == InsertAt(Skeletons(s), k, Skeleton(x))
  {
    var l := Skeletons(InsertAt(s, k, x));
    var r := InsertAt(Skeletons(s), k, Skeleton(x));
    forall p | 0 <= p < |l| ensures l[p] == r[p] {
      if p > k {
        assert InsertAt(s, k, x)[p] == s[p - 1];
      }
    }
  }

  /** Two equal skeletons have the same opcode, id and operand count at every position. */
  lemma SkeletonAt(s: seq<Inst>, t: seq<Inst>, p: nat)
    requires Skeletons(s) == Skeletons(t) && p < |s|
    ensures s[p].id == t[p].id && s[p].op == t[p].op && |s[p].args| == |t[p].args|
  {
    assert Skeletons(s)[p] == Skeleton(s[p]) && Skeletons(t)[p] == Skeleton(t[p]);
    assert |Skeleton(s[p]).args| == |s[p].args| && |Skeleton(t[p]).args| == |t[p].args|;
  }

  /** The instructions of `s` with an id below `n`, in their order in `s`: those that
      existed before the ids from `n` on were handed out. */
  function Older(s: seq<Inst>, n: InstId): (r: seq<Inst>)
    ensures |r| <= |s|
    ensures forall x :: x in r <==> x in s && x.id < n
  {
    if s == [] then [] else (if s[0].id < n then [s[0]] else []) + Older(s[1..], n)
  }

  lemma {:induction false} OlderAppend(s: seq<Inst>, t: seq<Inst>, n: InstId)
    ensures Older(s + t, n) == Older(s, n) + Older(t, n)
  {
    if s == [] {
      assert s + t == t;
    } else {
      assert (s + t)[1..] == s[1..] + t;
      OlderAppend(s[1..], t, n);
    }
  }

  /** Instructions all newer than `n` leave nothing. */
  lemma {:induction false} OlderNone(s: seq<Inst>, n: InstId)
    requires forall j | 0 <= j < |s| :: n <= s[j].id
    ensures Older(s, n) == []
  {
    if s != [] {
      OlderNone(s[1..], n);
    }
  }

  /** Inserting a newer instruction leaves the older ones as they were. */
  lemma OlderInsert(s: seq<Inst>, k: nat, x: Inst, n: InstId)
    requires k <= |s| && n <= x.id
    ensures Older(InsertAt(s, k, x), n) == Older(s, n)
  {
    var a, z := s[..k], s[k..];
    assert InsertAt(s, k, x) == a + ([x] + z);
    assert ([x] + z)[1..] == z;
    assert a + z == s;
    OlderAppend(a, [x] + z, n);
    OlderAppend(a, z, n);
  }

  /** Every instruction of a well-formed function is older than its next id. */
  lemma SkeletonIds(st: Body, b: nat)
    requires WellFormed(st) && b < |st.blocks|
    ensures forall x | x in Skeletons(st.blocks[b]) :: x.id < st.nextId
  {
    forall x | x in Skeletons(st.blocks[b]) ensures x.id < st.nextId {
      var p :| 0 <= p < |st.blocks[b]| && Skeletons(st.blocks[b])[p] == x;
      assert InstOk(st.blocks[b][p], st.nextId);
    }
  }

  lemma RedirectWellFormed(st: Body, from: InstId, to: InstId)
    requires WellFormed(st) && to < st.nextId
    ensures WellFormed(Body(Redirect(st.blocks, from, to), st.nextId))
  {
    var rs := Redirect(st.blocks, from, to);
    forall b, p | 0 <= b < |rs| && 0 <= p < |rs[b]| ensures InstOk(rs[b][p], st.nextId) {
      var x := st.blocks[b][p];
      assert InstOk(x, st.nextId);
      forall a | 0 <= a < |x.args| ensures OperandOk(rs[b][p].args[a], st.nextId) {
        assert OperandOk(x.args[a], st.nextId);
      }
    }
  }

  lemma InsertWellFormed(st: Body, b: nat, k: nat, x: Inst, n: InstId)
    requires WellFormed(st) && b < |st.blocks| && k <= |st.blocks[b]|
    requires st.nextId <= n && InstOk(x, n)
    ensures WellFormed(Body(st.blocks[b := InsertAt(st.blocks[b], k, x)], n))
  {
    var rs := st.blocks[b := InsertAt(st.blocks[b], k, x)];
    forall c, p | 0 <= c < |rs| && 0 <= p < |rs[c]| ensures InstOk(rs[c][p], n) {
      if c == b && p > k {
        assert rs[c][p] == st.blocks[b][p - 1];
      }
      if c != b || p != k {
        var q := if c == b && p > k then p - 1 else p;
        var y := st.blocks[c][q];
        assert InstOk(y, st.nextId);
        forall a | 0 <= a < |y.args| ensures OperandOk(y.args[a], n) {
          assert OperandOk(y.args[a], st.nextId);
        }
      }
    }
  }

  // ---------------------------------------------------------------------------
  // The function being rewritten, as the pass sees it: a mutable object

  class Function {
    var blocks: seq<seq<Inst>>
    var nextId: InstId

    ghost function State(): Body
      reads this
    {
      Body(blocks, nextId)
    }

    ghost predicate Valid()
      reads this
    {
      WellFormed(State())
    }

    constructor (blocks: seq<seq<Inst>>, nextId: InstId)
      requires WellFormed(Body(blocks, nextId))
      ensures Valid() && State() == Body(blocks, nextId)
    {
      this.blocks := blocks;
      this.nextId := nextId;
    }

    /** BinaryOperator::Create: a new binary instruction, not yet in any block, with a
        fresh id. */
    method CreateBinary(op: Opcode, lhs: Operand, rhs: Operand) returns (x: Inst)
      requires Valid() && IsBinary(op) && OperandOk(lhs, nextId) && OperandOk(rhs, nextId)
      modifies this`nextId
      ensures Valid() && InstOk(x, nextId)
      ensures x == Inst(old(nextId), op, [lhs, rhs]) && nextId == old(nextId) + 1
    {
      x := Inst(nextId, op, [lhs, rhs]);
      nextId := nextId + 1;
    }

    /** Instruction::insertAfter: `x` goes immediately after the instruction at position
        `pos` of block `b`; every other instruction keeps its block and relative order.
        `x` is a new instruction: no instruction of the function has its id. */
    method InsertAfter(x: Inst, b: nat, pos: nat)
      requires Valid() && InstOk(x, nextId) && b < |blocks| && pos < |blocks[b]|
      requires forall c, p | 0 <= c < |blocks| && 0 <= p < |blocks[c]| :: blocks[c][p].id != x.id
      modifies this`blocks
      ensures Valid() && blocks == old(blocks)[b := InsertAt(old(blocks)[b], pos + 1, x)]
    {
      InsertWellFormed(State(), b, pos + 1, x, nextId);
      blocks := blocks[b := InsertAt(blocks[b], pos + 1, x)];
    }

    /** Value::replaceAllUsesWith: every operand slot in the function that reads `from`
        reads `to` afterwards. */
    method ReplaceAllUsesWith(from: InstId, to: InstId)
      requires Valid() && to < nextId
      modifies this`blocks
      ensures Valid() && blocks == Redirect(old(blocks), from, to)
    {
      RedirectWellFormed(State(), from, to);
      blocks := Redirect(blocks, from, to);
    }
  }
}
