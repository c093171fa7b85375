/** The part of LLVM's intermediate representation that the path and value generators read:
    a control-flow graph of basic blocks over values in static single assignment form.

    Blocks and values are names.  Blocks are named by their position in a topological order of
    the graph without its back edges (block 0 is the entry); values are named in an order in
    which a definition precedes the uses it dominates.  Such names always exist for a
    function whose blocks are all reachable, and nothing in the code looks at them. */
module Ir {
  import opened Bits
  import opened Wrappers

  type Block = nat
  type Value = nat

  /** One index of an address computation, already resolved against the data layout. */
  datatype GepIndex =
    | Field(number: nat, offset: nat)
    | ConstIndex(elemSize: nat, index: int)
    | VarIndex(elemSize: nat, variable: Value)

  datatype ValueDef =
    | ConstInt(c: nat)
    | NullPointer
    | Undef
    | Argument
    | Phi(incoming: map<Block, Value>)
    | Opaque(ranges: seq<(nat, nat)>)   // a load, a call, ...: nothing known but its !intrange
    | Binary(op: BinaryOp, left: Value, right: Value)
    | ICmp(pred: Predicate, left: Value, right: Value)
    | Select(cond: Value, ifTrue: Value, ifFalse: Value)
    | Trunc(operand: Value)
    | ZExt(operand: Value)
    | SExt(operand: Value)
    | BitCast(operand: Value)
    | PtrToInt(operand: Value)
    | WithOverflow(oop: OverflowOp, left: Value, right: Value)
    | ExtractValue(aggregate: Value, second: bool)
    | Gep(base: Value, indices: seq<GepIndex>)

  /** `home` is the block of an instruction; constants and arguments have none. */
  datatype ValueInfo =
    ValueInfo(def: ValueDef, width: Width, analyzable: bool, home: Option<Block>)

  datatype Case = Case(value: Value, dest: Block)

  datatype Terminator =
    | Ret
    | Br(dest: Block)
    | CondBr(cond: Value, ifTrue: Block, ifFalse: Block)
    | Switch(cond: Value, default: Block, cases: seq<Case>)
    | Indirect(dests: seq<Block>)       // indirectbr and invoke

  datatype BlockInfo =
    BlockInfo(preds: seq<Block>, phis: seq<Value>, body: seq<Value>, term: Terminator)

  datatype Function =
    Function(blocks: seq<BlockInfo>, values: seq<ValueInfo>, backedges: seq<(Block, Block)>)

  predicate IsSuccessor(t: Terminator, b: Block) {
    match t
    case Ret => false
    case Br(dest) => b == dest
    case CondBr(_, yes, no) => b == yes || b == no
    case Switch(_, default, cases) => b == default || exists i | 0 <= i < |cases| :: cases[i].dest == b
    case Indirect(dests) => b in dests
  }

  predicate IsEdge(f: Function, p: Block, b: Block) {
    p < |f.blocks| && b < |f.blocks| && IsSuccessor(f.blocks[p].term, b)
  }

  predicate IsBackedge(f: Function, p: Block, b: Block) { (p, b) in f.backedges }

  /** A path from the entry block. */
  ghost predicate IsPath(f: Function, path: seq<Block>) {
    && |path| > 0
    && path[0] == 0
    && forall i | 0 <= i < |path| - 1 :: IsEdge(f, path[i], path[i + 1])
  }

  ghost predicate IsPathTo(f: Function, path: seq<Block>, b: Block) {
    IsPath(f, path) && path[|path| - 1] == b
  }

  /** `a` dominates `b`: every path from the entry to `b` passes through `a`. */
  ghost predicate Dominates(f: Function, a: Block, b: Block) {
    forall path | IsPathTo(f, path, b) :: a in path
  }

  /** At the end of block `b`, value `v` has its definitive run-time value. */
  ghost predicate Available(f: Function, v: Value, b: Block)
    requires v < |f.values|
  {
    f.values[v].home.None? || Dominates(f, f.values[v].home.value, b)
  }

  function IndexOperands(indices: seq<GepIndex>): set<Value> {
    set i | 0 <= i < |indices| && indices[i].VarIndex? :: indices[i].variable
  }

  /** Operands that an instruction reads when it executes; a phi reads on the edge instead. */
  function Operands(d: ValueDef): set<Value> {
    match d
    case ConstInt(_) | NullPointer | Undef | Argument | Phi(_) | Opaque(_) => {}
    case Binary(_, l, r) => {l, r}
    case ICmp(_, l, r) => {l, r}
    case Select(c, t, e) => {c, t, e}
    case Trunc(x) => {x}
    case ZExt(x) => {x}
    case SExt(x) => {x}
    case BitCast(x) => {x}
    case PtrToInt(x) => {x}
    case WithOverflow(_, l, r) => {l, r}
    case ExtractValue(a, _) => {a}
    case Gep(b, indices) => {b} + IndexOperands(indices)
  }

  predicate IsInstruction(d: ValueDef) {
    !(d.ConstInt? || d.NullPointer? || d.Undef? || d.Argument?)
  }

  predicate IsInteger(f: Function, v: Value, w: Width) {
    v < |f.values| && f.values[v].analyzable && f.values[v].width == w
  }

  predicate IsAnalyzable(f: Function, v: Value) {
    v < |f.values| && f.values[v].analyzable
  }

  predicate SameWidth(f: Function, l: Value, r: Value) {
    IsAnalyzable(f, l) && IsInteger(f, r, f.values[l].width)
  }

  predicate IndexOk(f: Function, i: GepIndex) {
    match i
    case Field(number, offset) => number == 0 ==> offset == 0
    case ConstIndex(_, _) => true
    case VarIndex(_, v) => IsAnalyzable(f, v)
  }

  /** The typing rules of LLVM's verifier, for a value whose operands have smaller names. */
  predicate WellTyped(f: Function, v: Value)
    requires v < |f.values|
  {
    var ValueInfo(def, w, analyzable, _) := f.values[v];
    match def
    case ConstInt(c) => analyzable && c < Pow2(w)
    case NullPointer => analyzable
    case Undef | Argument | Phi(_) => true
    case Opaque(ranges) =>
      analyzable ==> forall i | 0 <= i < |ranges| :: ranges[i].0 < Pow2(w) && ranges[i].1 < Pow2(w)
    case Binary(_, l, r) => analyzable && IsInteger(f, l, w) && IsInteger(f, r, w)
    case ICmp(_, l, r) => analyzable && w == 1 && SameWidth(f, l, r)
    case Select(c, t, e) =>
      analyzable && IsInteger(f, c, 1) && IsInteger(f, t, w) && IsInteger(f, e, w)
    case Trunc(x) => analyzable && IsAnalyzable(f, x) && w < f.values[x].width
    case ZExt(x) => analyzable && IsAnalyzable(f, x) && f.values[x].width < w
    case SExt(x) => analyzable && IsAnalyzable(f, x) && f.values[x].width < w
    case BitCast(x) => analyzable && x < |f.values| && (IsAnalyzable(f, x) ==> f.values[x].width == w)
    case PtrToInt(x) => analyzable && IsAnalyzable(f, x)
    case WithOverflow(_, l, r) => !analyzable && SameWidth(f, l, r)
    case ExtractValue(a, second) =>
      a < |f.values| &&
      (match f.values[a].def
       case WithOverflow(_, l, _) =>
         analyzable && IsAnalyzable(f, l) && w == (if second then 1 else f.values[l].width)
       case _ => true)
    case Gep(b, indices) =>
      analyzable && IsInteger(f, b, w) && forall i | 0 <= i < |indices| :: IndexOk(f, indices[i])
  }

  ghost predicate ValueOk(f: Function, v: Value)
    requires v < |f.values|
  {
    var ValueInfo(def, _, _, home) := f.values[v];
    && (home.Some? <==> IsInstruction(def))
    && (home.Some? ==>
          home.value < |f.blocks| &&
          v in if def.Phi? then f.blocks[home.value].phis else f.blocks[home.value].body)
    && (forall o | o in Operands(def) :: o < v && Available(f, o, home.value))
    && WellTyped(f, v)
  }

  ghost predicate PhiOk(f: Function, b: Block, v: Value)
    requires b < |f.blocks|
  {
    && v < |f.values|
    && f.values[v].home == Some(b)
    && f.values[v].def.Phi?
    && forall p | p in f.blocks[b].preds ::
         var incoming := f.values[v].def.incoming;
         && p in incoming
         && incoming[p] < |f.values|
         && f.values[incoming[p]].width == f.values[v].width
         && f.values[incoming[p]].analyzable == f.values[v].analyzable
         && Available(f, incoming[p], p)
  }

  ghost predicate TermOk(f: Function, b: Block)
    requires b < |f.blocks|
  {
    match f.blocks[b].term
    case CondBr(c, _, _) => IsInteger(f, c, 1) && Available(f, c, b)
    case Switch(c, _, cases) =>
      && c < |f.values| && f.values[c].analyzable && Available(f, c, b)
      && (forall i | 0 <= i < |cases| ::
            IsInteger(f, cases[i].value, f.values[c].width) && f.values[cases[i].value].def.ConstInt?)
      && (forall i, j | 0 <= i < j < |cases| ::
            f.values[cases[i].value].def.c != f.values[cases[j].value].def.c)
    case _ => true
  }

  ghost predicate BlockOk(f: Function, b: Block)
    requires b < |f.blocks|
  {
    var BlockInfo(preds, phis, body, term) := f.blocks[b];
    && (forall s: Block | IsSuccessor(term, s) :: s < |f.blocks|)
    && (forall p | p in preds :: IsEdge(f, p, b))
    && (forall p | IsEdge(f, p, b) :: p in preds)
    && (forall p | p in preds && !IsBackedge(f, p, b) :: p < b)
    && (if b == 0 then preds == [] && phis == []
        else exists p :: p in preds && !IsBackedge(f, p, b))
    && (forall i | 0 <= i < |phis| :: PhiOk(f, b, phis[i]))
    && (forall i, j | 0 <= i < j < |phis| :: phis[i] != phis[j])
    && (forall i | 0 <= i < |body| ::
          body[i] < |f.values| && f.values[body[i]].home == Some(b) && !f.values[body[i]].def.Phi?)
    && (forall i, j | 0 <= i < j < |body| :: body[i] < body[j])
    && TermOk(f, b)
  }

  /** What LLVM's verifier and `FindFunctionBackedges` guarantee of a function whose blocks are
      all reachable: every use is dominated by its definition, and the edges that are not back
      edges form an acyclic graph in which every block is still reachable. */
  ghost predicate WellFormed(f: Function) {
    && |f.blocks| > 0
    && (forall b: Block | b < |f.blocks| :: BlockOk(f, b))
    && (forall v: Value | v < |f.values| :: ValueOk(f, v))
  }
}
