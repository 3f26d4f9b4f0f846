/**
 * The type-matrix builder: one sequential case id for every index-only
 * variant and every (index type, data type) pair, plus the generated
 * `get_thunk_case` lookup that maps runtime typenums back to that id.
 *
 * The tables of index and data types are parameters.  A typenum is the name
 * of a C macro (`NPY_INT32`, ...); the integer it stands for when the
 * generated code is compiled is given by an environment `env`.
 */
module TypeMatrix {
  import opened Common

  /** A (typenum, C++ type) pair of the I_TYPES / T_TYPES tables. */
  datatype TypeEntry = TypeEntry(typenum: string, ctype: string)

  /** One tuple `(j, I_typenum, T_typenum, I_type, T_type)` of `i_types` / `it_types`. */
  datatype Variant = Variant(id: nat, iTypenum: string, tTypenum: Option<string>,
                             iType: string, tType: Option<string>)

  /** Ids used per index type: one index-only variant plus one per data type. */
  function Stride(tt: seq<TypeEntry>): nat { |tt| + 1 }

  /** The id of index type k's index-only variant: the counter after k full blocks. */
  function Base(tt: seq<TypeEntry>, k: nat): nat
  {
    if k == 0 then 0 else Base(tt, k - 1) + Stride(tt)
  }

  lemma {:induction false} BaseIsProduct(tt: seq<TypeEntry>, k: nat)
    ensures Base(tt, k) == k * Stride(tt)
  {
    if k > 0 {
      BaseIsProduct(tt, k - 1);
    }
  }

  function IndexOnly(it: seq<TypeEntry>, tt: seq<TypeEntry>, k: nat): Variant
    requires k < |it|
  {
    Variant(Base(tt, k), it[k].typenum, None, it[k].ctype, None)
  }

  function Combined(it: seq<TypeEntry>, tt: seq<TypeEntry>, k: nat, t: nat): Variant
    requires k < |it| && t < |tt|
  {
    Variant(Base(tt, k) + 1 + t, it[k].typenum, Some(tt[t].typenum),
            it[k].ctype, Some(tt[t].ctype))
  }

  /** The `i_types` list the builder returns. */
  function ITypes(it: seq<TypeEntry>, tt: seq<TypeEntry>): seq<Variant>
  {
    seq(|it|, k requires 0 <= k < |it| => IndexOnly(it, tt, k))
  }

  /** The data-type variants of index type k, in T_TYPES order. */
  function Row(it: seq<TypeEntry>, tt: seq<TypeEntry>, k: nat): seq<Variant>
    requires k < |it|
  {
    seq(|tt|, t requires 0 <= t < |tt| => Combined(it, tt, k, t))
  }

  /** The rows of the first n index types, in I_TYPES order. */
  function Rows(it: seq<TypeEntry>, tt: seq<TypeEntry>, n: nat): seq<Variant>
    requires n <= |it|
  {
    if n == 0 then [] else Rows(it, tt, n - 1) + Row(it, tt, n - 1)
  }

  /** The `it_types` list the builder returns. */
  function ItTypes(it: seq<TypeEntry>, tt: seq<TypeEntry>): seq<Variant>
  {
    Rows(it, tt, |it|)
  }

  // ---------------------------------------------------------------------
  // The generated lookup, as a structure, its text and its meaning in C.

  /** `else if (T_typenum == <tTypenum>) { return <id>; }` */
  datatype DataBranch = DataBranch(tTypenum: string, id: nat)

  /** `else if (I_typenum == <iTypenum>) { if (T_typenum == -1) { return <id>; } <cases> }` */
  datatype IndexBranch = IndexBranch(iTypenum: string, id: nat, cases: seq<DataBranch>)

  /** The branches the builder emits: one per index type, built from the same variants it lists. */
  function Getter(it: seq<TypeEntry>, tt: seq<TypeEntry>): seq<IndexBranch>
  {
    seq(|it|, k requires 0 <= k < |it| => Branch(it, tt, k))
  }

  function Branch(it: seq<TypeEntry>, tt: seq<TypeEntry>, k: nat): IndexBranch
    requires k < |it|
  {
    IndexBranch(it[k].typenum, IndexOnly(it, tt, k).id, DataBranches(it, tt, k))
  }

  function DataBranches(it: seq<TypeEntry>, tt: seq<TypeEntry>, k: nat): seq<DataBranch>
    requires k < |it|
  {
    seq(|tt|, t requires 0 <= t < |tt| => DataBranch(tt[t].typenum, Combined(it, tt, k, t).id))
  }

  /** One piece appended to `getter_code`. */
  datatype GetterPiece =
    | Start                                    // "    if (0) {}"
    | IndexHead(iTypenum: string, id: nat)     // else if (I_typenum == ...) { if (T_typenum == -1) { return j; }
    | DataCase(tTypenum: string, id: nat)      // else if (T_typenum == ...) { return j; }
    | IndexClose                               // }

  function PieceText(p: GetterPiece): string
  {
    match p
    case Start => "    if (0) {}"
    case IndexHead(iTypenum, id) =>
      "\n        else if (I_typenum == " + iTypenum + ") {\n            if (T_typenum == -1) { return "
      + NatToString(id) + "; }"
    case DataCase(tTypenum, id) =>
      "\n            else if (T_typenum == " + tTypenum + ") { return " + NatToString(id) + "; }"
    case IndexClose => "\n        }"
  }

  /** The pieces appended for a list of data branches, in order. */
  function CasePieces(cs: seq<DataBranch>): (r: seq<GetterPiece>)
    ensures |r| == |cs|
  {
    seq(|cs|, t requires 0 <= t < |cs| => DataCase(cs[t].tTypenum, cs[t].id))
  }

  function BranchPieces(b: IndexBranch): seq<GetterPiece>
  {
    [IndexHead(b.iTypenum, b.id)] + CasePieces(b.cases) + [IndexClose]
  }

  /** The pieces appended for a list of index branches, in order. */
  function GetterPieces(bs: seq<IndexBranch>): seq<GetterPiece>
  {
    if bs == [] then [] else GetterPieces(bs[..|bs| - 1]) + BranchPieces(bs[|bs| - 1])
  }

  /** The text of a list of pieces. */
  function Text(ps: seq<GetterPiece>): string
  {
    if ps == [] then "" else Text(ps[..|ps| - 1]) + PieceText(ps[|ps| - 1])
  }

  /** GET_THUNK_CASE_TEMPLATE filled with `content`. */
  function GetThunkCaseTemplate(content: string): string
  {
    "\nstatic int get_thunk_case(int I_typenum, int T_typenum)\n{\n    " + content
    + ";\n    return -1;\n}\n"
  }

  /** The text of the generated `get_thunk_case`. */
  function GetterText(it: seq<TypeEntry>, tt: seq<TypeEntry>): string
  {
    GetThunkCaseTemplate(Text([Start] + GetterPieces(Getter(it, tt))))
  }

  /** Every typenum the getter compares against has a value in env. */
  predicate Bound(g: seq<IndexBranch>, env: map<string, int>)
  {
    forall k :: 0 <= k < |g| ==>
      g[k].iTypenum in env && forall t :: 0 <= t < |g[k].cases| ==> g[k].cases[t].tTypenum in env
  }

  function EvalCases(cs: seq<DataBranch>, env: map<string, int>, tNum: int): int
    requires forall t :: 0 <= t < |cs| ==> cs[t].tTypenum in env
  {
    if cs == [] then -1
    else if env[cs[0].tTypenum] == tNum then cs[0].id
    else EvalCases(cs[1..], env, tNum)
  }

  /**
   * What the generated `get_thunk_case(I_typenum, T_typenum)` returns: the
   * first index branch whose typenum matches is entered; inside it -1 selects
   * the index-only id, otherwise the first matching data branch; a branch
   * entered without a data match falls through to `return -1`.
   */
  function EvalGetter(g: seq<IndexBranch>, env: map<string, int>, iNum: int, tNum: int): int
    requires Bound(g, env)
  {
    if g == [] then -1
    else if env[g[0].iTypenum] == iNum then
      (if tNum == -1 then g[0].id else EvalCases(g[0].cases, env, tNum))
    else EvalGetter(g[1..], env, iNum, tNum)
  }

  // ---------------------------------------------------------------------
  // The builder itself.

  /**
   * get_thunk_type_set, with the tables as parameters.  The getter code is
   * kept as the list of pieces appended to it; its text is their concatenation
   * (Text), each piece being the filled-in template its GetterPiece names.
   */
  method GetThunkTypeSet(it: seq<TypeEntry>, tt: seq<TypeEntry>)
    returns (iTypes: seq<Variant>, itTypes: seq<Variant>, getterCode: string)
    ensures iTypes == ITypes(it, tt)
    ensures itTypes == ItTypes(it, tt)
    ensures getterCode == GetterText(it, tt)
  {
    iTypes, itTypes := [], [];
    var j: nat := 0;
    var code := [Start];
    ghost var g := Getter(it, tt);
    for k := 0 to |it|
      invariant j == Base(tt, k)
      invariant iTypes == ITypes(it, tt)[..k]
      invariant itTypes == Rows(it, tt, k)
      invariant code == [Start] + GetterPieces(g[..k])
    {
      var head := IndexHead(it[k].typenum, j);
      BlockStep(it, tt, k, iTypes, itTypes, code);
      iTypes := iTypes + [Variant(j, it[k].typenum, None, it[k].ctype, None)];
      j := j + 1;
      var row, cases;
      row, cases, j := DataVariants(it, tt, k, j);
      itTypes := itTypes + row;
      code := code + ([head] + cases + [IndexClose]);
    }
    assert g[..|it|] == g;
    getterCode := GetThunkCaseTemplate(Text(code));
  }

  /**
   * The inner loop of get_thunk_type_set for index type k: one variant and one
   * `else if (T_typenum == ...)` piece per data type, numbered on from j0.
   */
  method DataVariants(it: seq<TypeEntry>, tt: seq<TypeEntry>, k: nat, j0: nat)
    returns (row: seq<Variant>, pieces: seq<GetterPiece>, j: nat)
    requires k < |it| && j0 == Base(tt, k) + 1
    ensures row == Row(it, tt, k)
    ensures pieces == CasePieces(DataBranches(it, tt, k))
    ensures j == Base(tt, k + 1)
  {
    ghost var cs := DataBranches(it, tt, k);
    row, pieces, j := [], [], j0;
    for t := 0 to |tt|
      invariant j == Base(tt, k) + 1 + t
      invariant row == Row(it, tt, k)[..t]
      invariant pieces == CasePieces(cs[..t])
    {
      PrefixStep(Row(it, tt, k), t);
      CasesStep(cs, t);
      pieces := pieces + [DataCase(tt[t].typenum, j)];
      row := row + [Variant(j, it[k].typenum, Some(tt[t].typenum), it[k].ctype, Some(tt[t].ctype))];
      j := j + 1;
    }
    assert cs[..|tt|] == cs;
    assert Row(it, tt, k)[..|tt|] == Row(it, tt, k);
  }

  /** What one pass of the outer loop of get_thunk_type_set adds, for index type k. */
  lemma BlockStep(it: seq<TypeEntry>, tt: seq<TypeEntry>, k: nat,
                  iTypes: seq<Variant>, itTypes: seq<Variant>, code: seq<GetterPiece>)
    requires k < |it|
    requires iTypes == ITypes(it, tt)[..k]
    requires itTypes == Rows(it, tt, k)
    requires code == [Start] + GetterPieces(Getter(it, tt)[..k])
    ensures iTypes + [Variant(Base(tt, k), it[k].typenum, None, it[k].ctype, None)] == ITypes(it, tt)[..k + 1]
    ensures itTypes + Row(it, tt, k) == Rows(it, tt, k + 1)
    ensures code + ([IndexHead(it[k].typenum, Base(tt, k))] + CasePieces(DataBranches(it, tt, k)) + [IndexClose])
         == [Start] + GetterPieces(Getter(it, tt)[..k + 1])
  {
    PrefixStep(ITypes(it, tt), k);
    RenderBranchesStep(Getter(it, tt), k);
  }

  lemma CasesStep(cs: seq<DataBranch>, t: nat)
    requires t < |cs|
    ensures CasePieces(cs[..t + 1]) == CasePieces(cs[..t]) + [DataCase(cs[t].tTypenum, cs[t].id)]
  {
  }

  lemma RenderBranchesStep(g: seq<IndexBranch>, k: nat)
    requires k < |g|
    ensures GetterPieces(g[..k + 1]) == GetterPieces(g[..k]) + BranchPieces(g[k])
  {
    PrefixStep(g, k);
  }

  lemma PrefixStep<T>(s: seq<T>, k: nat)
    requires k < |s|
    ensures s[..k + 1] == s[..k] + [s[k]]
    ensures s[..k + 1][..k] == s[..k]
  {
  }

  // ---------------------------------------------------------------------
  // Numbering.

  lemma MulLe(a: nat, b: nat, c: nat)
    requires a <= b
    ensures a * c <= b * c
  {
  }

  /** k * s + r with 0 <= r < s determines k and r. */
  lemma {:induction false} UniquePosition(k1: nat, r1: nat, k2: nat, r2: nat, s: nat)
    requires r1 < s && r2 < s
    requires k1 * s + r1 == k2 * s + r2
    ensures k1 == k2 && r1 == r2
  {
    if k1 < k2 {
      MulLe(k1 + 1, k2, s);
    } else if k2 < k1 {
      MulLe(k2 + 1, k1, s);
    }
  }

  /** Where index type k's row starts in it_types: k full rows of |T| entries. */
  function RowStart(tt: seq<TypeEntry>, k: nat): nat
  {
    if k == 0 then 0 else RowStart(tt, k - 1) + |tt|
  }

  lemma {:induction false} RowStartIsProduct(tt: seq<TypeEntry>, k: nat)
    ensures RowStart(tt, k) == k * |tt|
  {
    if k > 0 {
      RowStartIsProduct(tt, k - 1);
    }
  }

  lemma {:induction false} RowStartMono(tt: seq<TypeEntry>, k1: nat, k2: nat)
    requires k1 <= k2
    ensures RowStart(tt, k1) <= RowStart(tt, k2)
  {
    if k1 < k2 {
      RowStartMono(tt, k1, k2 - 1);
    }
  }

  lemma {:induction false} RowsLength(it: seq<TypeEntry>, tt: seq<TypeEntry>, n: nat)
    requires n <= |it|
    ensures |Rows(it, tt, n)| == RowStart(tt, n)
  {
    if n > 0 {
      RowsLength(it, tt, n - 1);
    }
  }

  lemma {:induction false} RowsAt(it: seq<TypeEntry>, tt: seq<TypeEntry>, n: nat, k: nat, t: nat)
    requires n <= |it| && k < n && t < |tt|
    ensures |Rows(it, tt, n)| == RowStart(tt, n)
    ensures RowStart(tt, k) + t < RowStart(tt, n)
    ensures Rows(it, tt, n)[RowStart(tt, k) + t] == Combined(it, tt, k, t)
  {
    RowsLength(it, tt, n);
    RowStartMono(tt, k + 1, n);
    if k < n - 1 {
      RowsAt(it, tt, n - 1, k, t);
    } else {
      RowsLength(it, tt, n - 1);
    }
  }

  /** Every entry of the first n rows is some Combined(k, t) with k < n, at position RowStart(k) + t. */
  lemma {:induction false} RowsEntry(it: seq<TypeEntry>, tt: seq<TypeEntry>, n: nat, p: nat)
    returns (k: nat, t: nat)
    requires n <= |it| && p < |Rows(it, tt, n)|
    ensures k < n && t < |tt| && p == RowStart(tt, k) + t
    ensures Rows(it, tt, n)[p] == Combined(it, tt, k, t)
  {
    RowsLength(it, tt, n - 1);
    if p < |Rows(it, tt, n - 1)| {
      k, t := RowsEntry(it, tt, n - 1, p);
    } else {
      k, t := n - 1, p - |Rows(it, tt, n - 1)|;
    }
  }

  /** |i_types| = |I_TYPES|, |it_types| = |I_TYPES|·|T_TYPES|; both keep declaration order. */
  lemma Shape(it: seq<TypeEntry>, tt: seq<TypeEntry>)
    ensures |ITypes(it, tt)| == |it|
    ensures |ItTypes(it, tt)| == |it| * |tt|
    ensures forall k :: 0 <= k < |it| ==>
      ITypes(it, tt)[k].tTypenum == None && ITypes(it, tt)[k].tType == None &&
      ITypes(it, tt)[k].iTypenum == it[k].typenum && ITypes(it, tt)[k].iType == it[k].ctype
  {
    RowsLength(it, tt, |it|);
    RowStartIsProduct(tt, |it|);
  }

  /** Index type k gets id k·(|T|+1). */
  lemma IndexOnlyId(it: seq<TypeEntry>, tt: seq<TypeEntry>, k: nat)
    requires k < |it|
    ensures ITypes(it, tt)[k].id == k * (|tt| + 1)
  {
    BaseIsProduct(tt, k);
  }

  /** Index type k, data type t sits at position k·|T| + t of it_types with id k·(|T|+1)+1+t. */
  lemma CombinedAt(it: seq<TypeEntry>, tt: seq<TypeEntry>, k: nat, t: nat)
    requires k < |it| && t < |tt|
    ensures k * |tt| + t < |ItTypes(it, tt)|
    ensures ItTypes(it, tt)[k * |tt| + t] ==
      Variant(k * (|tt| + 1) + 1 + t, it[k].typenum, Some(tt[t].typenum), it[k].ctype, Some(tt[t].ctype))
  {
    RowsAt(it, tt, |it|, k, t);
    RowStartIsProduct(tt, k);
    BaseIsProduct(tt, k);
  }

  /** All variants, index-only first, then the index+data ones. */
  function AllVariants(it: seq<TypeEntry>, tt: seq<TypeEntry>): seq<Variant>
  {
    ITypes(it, tt) + ItTypes(it, tt)
  }

  /** Position in i_types ++ it_types of the variant at offset r of index type k's block. */
  function Slot(it: seq<TypeEntry>, tt: seq<TypeEntry>, k: nat, r: nat): nat
  {
    if r == 0 then k else |it| + RowStart(tt, k) + (r - 1)
  }

  /**
   * Where id n sits in i_types ++ it_types: the index-only variant of index
   * type n / (|T|+1) when n is a multiple of |T|+1, otherwise that index
   * type's data-type variant number n % (|T|+1) - 1.
   */
  function PositionOf(it: seq<TypeEntry>, tt: seq<TypeEntry>, n: nat): nat
  {
    Slot(it, tt, n / Stride(tt), n % Stride(tt))
  }

  lemma {:induction false} BaseMono(tt: seq<TypeEntry>, k1: nat, k2: nat)
    requires k1 <= k2
    ensures Base(tt, k1) <= Base(tt, k2)
  {
    if k1 < k2 {
      BaseMono(tt, k1, k2 - 1);
    }
  }

  lemma SlotId(it: seq<TypeEntry>, tt: seq<TypeEntry>, k: nat, r: nat)
    requires k < |it| && r < Stride(tt)
    ensures Slot(it, tt, k, r) < |AllVariants(it, tt)|
    ensures AllVariants(it, tt)[Slot(it, tt, k, r)].id == Base(tt, k) + r
  {
    var all := AllVariants(it, tt);
    if r > 0 {
      var q := RowStart(tt, k) + (r - 1);
      RowsAt(it, tt, |it|, k, r - 1);
      assert Slot(it, tt, k, r) == |it| + q;
      assert all[|it| + q] == ItTypes(it, tt)[q];
    } else {
      assert all[k] == ITypes(it, tt)[k];
    }
  }

  /** Each variant's position and id come from one (index type, offset) pair. */
  lemma {:induction false} VariantPosition(it: seq<TypeEntry>, tt: seq<TypeEntry>, p: nat)
    returns (k: nat, r: nat)
    requires p < |AllVariants(it, tt)|
    ensures k < |it| && r < Stride(tt)
    ensures p == Slot(it, tt, k, r)
    ensures AllVariants(it, tt)[p].id == Base(tt, k) + r
  {
    if p < |it| {
      k, r := p, 0;
    } else {
      var t;
      k, t := RowsEntry(it, tt, |it|, p - |it|);
      r := 1 + t;
    }
  }

  lemma {:induction false} BaseSplit(tt: seq<TypeEntry>, k: nat)
    ensures Base(tt, k) == k + RowStart(tt, k)
  {
    if k > 0 {
      BaseSplit(tt, k - 1);
    }
  }

  lemma AllVariantsLength(it: seq<TypeEntry>, tt: seq<TypeEntry>)
    ensures |AllVariants(it, tt)| == |it| * Stride(tt) == Base(tt, |it|)
  {
    RowsLength(it, tt, |it|);
    BaseSplit(tt, |it|);
    BaseIsProduct(tt, |it|);
  }

  lemma IdInRange(it: seq<TypeEntry>, tt: seq<TypeEntry>, p: nat)
    requires p < |AllVariants(it, tt)|
    ensures AllVariants(it, tt)[p].id < |it| * Stride(tt)
  {
    AllVariantsLength(it, tt);
    var k, r := VariantPosition(it, tt, p);
    BaseMono(tt, k + 1, |it|);
  }

  lemma IdsDiffer(it: seq<TypeEntry>, tt: seq<TypeEntry>, p: nat, q: nat)
    requires p < q < |AllVariants(it, tt)|
    ensures AllVariants(it, tt)[p].id != AllVariants(it, tt)[q].id
  {
    var k1, r1 := VariantPosition(it, tt, p);
    var k2, r2 := VariantPosition(it, tt, q);
    BaseIsProduct(tt, k1);
    BaseIsProduct(tt, k2);
    if Base(tt, k1) + r1 == Base(tt, k2) + r2 {
      UniquePosition(k1, r1, k2, r2, Stride(tt));
    }
  }

  lemma IdCovered(it: seq<TypeEntry>, tt: seq<TypeEntry>, n: nat)
    requires n < |it| * Stride(tt)
    ensures PositionOf(it, tt, n) < |AllVariants(it, tt)|
    ensures AllVariants(it, tt)[PositionOf(it, tt, n)].id == n
  {
    var s := Stride(tt);
    var k, r := n / s, n % s;
    DivModBelow(n, s, |it|);
    SlotId(it, tt, k, r);
    BaseIsProduct(tt, k);
  }

  /** Below m blocks of s, n lies in block n / s at offset n % s. */
  lemma DivModBelow(n: nat, s: nat, m: nat)
    requires 0 < s && n < m * s
    ensures n / s < m && n % s < s && (n / s) * s + n % s == n
  {
    if n / s >= m {
      MulLe(m, n / s, s);
    }
  }

  /**
   * Each id 0 .. |I|·(|T|+1)−1 is given exactly once across i_types ∪ it_types:
   * there are that many variants, their ids are pairwise distinct, and every id
   * in the range is used (by the variant at PositionOf(n)).
   */
  lemma IdsExactlyOnce(it: seq<TypeEntry>, tt: seq<TypeEntry>)
    ensures |AllVariants(it, tt)| == |it| * Stride(tt)
    ensures forall p :: 0 <= p < |AllVariants(it, tt)| ==> AllVariants(it, tt)[p].id < |it| * Stride(tt)
    ensures forall p, q :: 0 <= p < q < |AllVariants(it, tt)| ==> AllVariants(it, tt)[p].id != AllVariants(it, tt)[q].id
    ensures forall n :: 0 <= n < |it| * Stride(tt) ==>
      PositionOf(it, tt, n) < |AllVariants(it, tt)| && AllVariants(it, tt)[PositionOf(it, tt, n)].id == n
  {
    AllVariantsLength(it, tt);
    forall p | 0 <= p < |AllVariants(it, tt)|
      ensures AllVariants(it, tt)[p].id < |it| * Stride(tt)
    {
      IdInRange(it, tt, p);
    }
    forall p, q | 0 <= p < q < |AllVariants(it, tt)|
      ensures AllVariants(it, tt)[p].id != AllVariants(it, tt)[q].id
    {
      IdsDiffer(it, tt, p, q);
    }
    forall n | 0 <= n < |it| * Stride(tt)
      ensures PositionOf(it, tt, n) < |AllVariants(it, tt)| && AllVariants(it, tt)[PositionOf(it, tt, n)].id == n
    {
      IdCovered(it, tt, n);
    }
  }

  // ---------------------------------------------------------------------
  // Meaning of the generated lookup.

  predicate ValuesDistinct(es: seq<TypeEntry>, env: map<string, int>)
    requires forall k :: 0 <= k < |es| ==> es[k].typenum in env
  {
    forall a, b :: 0 <= a < b < |es| ==> env[es[a].typenum] != env[es[b].typenum]
  }

  /**
   * The configuration the generated lookup relies on: every typenum has a
   * value, index typenums are pairwise distinct, data typenums are pairwise
   * distinct and none of them equals the -1 "no data type" sentinel.
   */
  predicate ValidConfig(it: seq<TypeEntry>, tt: seq<TypeEntry>, env: map<string, int>)
  {
    (forall k :: 0 <= k < |it| ==> it[k].typenum in env) &&
    (forall t :: 0 <= t < |tt| ==> tt[t].typenum in env) &&
    ValuesDistinct(it, env) && ValuesDistinct(tt, env) &&
    (forall t :: 0 <= t < |tt| ==> env[tt[t].typenum] != -1)
  }

  lemma GetterBound(it: seq<TypeEntry>, tt: seq<TypeEntry>, env: map<string, int>)
    requires ValidConfig(it, tt, env)
    ensures Bound(Getter(it, tt), env)
  {
  }

  lemma {:induction false} EvalCasesFinds(cs: seq<DataBranch>, env: map<string, int>, tNum: int, t: nat)
    requires forall u :: 0 <= u < |cs| ==> cs[u].tTypenum in env
    requires t < |cs| && env[cs[t].tTypenum] == tNum
    requires forall u :: 0 <= u < t ==> env[cs[u].tTypenum] != tNum
    ensures EvalCases(cs, env, tNum) == cs[t].id
  {
    if t > 0 {
      EvalCasesFinds(cs[1..], env, tNum, t - 1);
    }
  }

  lemma {:induction false} EvalCasesMiss(cs: seq<DataBranch>, env: map<string, int>, tNum: int)
    requires forall u :: 0 <= u < |cs| ==> cs[u].tTypenum in env
    requires forall u :: 0 <= u < |cs| ==> env[cs[u].tTypenum] != tNum
    ensures EvalCases(cs, env, tNum) == -1
  {
    if cs != [] {
      EvalCasesMiss(cs[1..], env, tNum);
    }
  }

  lemma {:induction false} EvalGetterFinds(g: seq<IndexBranch>, env: map<string, int>, iNum: int, tNum: int, k: nat)
    requires Bound(g, env)
    requires k < |g| && env[g[k].iTypenum] == iNum
    requires forall u :: 0 <= u < k ==> env[g[u].iTypenum] != iNum
    ensures EvalGetter(g, env, iNum, tNum) ==
      if tNum == -1 then g[k].id else EvalCases(g[k].cases, env, tNum)
  {
    if k > 0 {
      EvalGetterFinds(g[1..], env, iNum, tNum, k - 1);
    }
  }

  lemma {:induction false} EvalGetterMiss(g: seq<IndexBranch>, env: map<string, int>, iNum: int, tNum: int)
    requires Bound(g, env)
    requires forall u :: 0 <= u < |g| ==> env[g[u].iTypenum] != iNum
    ensures EvalGetter(g, env, iNum, tNum) == -1
  {
    if g != [] {
      EvalGetterMiss(g[1..], env, iNum, tNum);
    }
  }

  /** get_thunk_case(I_typenum of i_types[k], -1) returns the id of i_types[k]. */
  lemma LookupIndexOnly(it: seq<TypeEntry>, tt: seq<TypeEntry>, env: map<string, int>, k: nat)
    requires ValidConfig(it, tt, env) && k < |it|
    ensures Bound(Getter(it, tt), env)
    ensures EvalGetter(Getter(it, tt), env, env[it[k].typenum], -1) == ITypes(it, tt)[k].id
  {
    EvalGetterFinds(Getter(it, tt), env, env[it[k].typenum], -1, k);
  }

  /** get_thunk_case(I_typenum, T_typenum) of it_types[p] returns the id of it_types[p]. */
  lemma LookupCombined(it: seq<TypeEntry>, tt: seq<TypeEntry>, env: map<string, int>, p: nat)
    requires ValidConfig(it, tt, env) && p < |ItTypes(it, tt)|
    ensures Bound(Getter(it, tt), env)
    ensures ItTypes(it, tt)[p].tTypenum.Some?
    ensures ItTypes(it, tt)[p].iTypenum in env && ItTypes(it, tt)[p].tTypenum.value in env
    ensures EvalGetter(Getter(it, tt), env, env[ItTypes(it, tt)[p].iTypenum],
                       env[ItTypes(it, tt)[p].tTypenum.value]) == ItTypes(it, tt)[p].id
  {
    var k, t := RowsEntry(it, tt, |it|, p);
    var g := Getter(it, tt);
    EvalGetterFinds(g, env, env[it[k].typenum], env[tt[t].typenum], k);
    EvalCasesFinds(g[k].cases, env, env[tt[t].typenum], t);
  }

  /**
   * get_thunk_case returns -1 when no index typenum matches, or when the data
   * typenum is not -1 and no data typenum matches.
   */
  lemma LookupMiss(it: seq<TypeEntry>, tt: seq<TypeEntry>, env: map<string, int>, iNum: int, tNum: int)
    requires ValidConfig(it, tt, env)
    requires (forall k :: 0 <= k < |it| ==> env[it[k].typenum] != iNum) ||
             (tNum != -1 && forall t :: 0 <= t < |tt| ==> env[tt[t].typenum] != tNum)
    ensures Bound(Getter(it, tt), env)
    ensures EvalGetter(Getter(it, tt), env, iNum, tNum) == -1
  {
    var g := Getter(it, tt);
    if forall k :: 0 <= k < |it| ==> env[it[k].typenum] != iNum {
      EvalGetterMiss(g, env, iNum, tNum);
    } else {
      var k :| 0 <= k < |it| && env[it[k].typenum] == iNum;
      EvalGetterFinds(g, env, iNum, tNum, k);
      EvalCasesMiss(g[k].cases, env, tNum);
    }
  }

  /** The tables the generator ships with. */
  const I_TYPES: seq<TypeEntry> := [
    TypeEntry("NPY_INT32", "npy_int32"),
    TypeEntry("NPY_INT64", "npy_int64")
  ]

  const T_TYPES: seq<TypeEntry> := [
    TypeEntry("NPY_BOOL", "npy_bool_wrapper"),
    TypeEntry("NPY_BYTE", "npy_byte"),
    TypeEntry("NPY_UBYTE", "npy_ubyte"),
    TypeEntry("NPY_SHORT", "npy_short"),
    TypeEntry("NPY_USHORT", "npy_ushort"),
    TypeEntry("NPY_INT", "npy_int"),
    TypeEntry("NPY_UINT", "npy_uint"),
    TypeEntry("NPY_LONG", "npy_long"),
    TypeEntry("NPY_ULONG", "npy_ulong"),
    TypeEntry("NPY_LONGLONG", "npy_longlong"),
    TypeEntry("NPY_ULONGLONG", "npy_ulonglong"),
    TypeEntry("NPY_FLOAT", "npy_float"),
    TypeEntry("NPY_DOUBLE", "npy_double"),
    TypeEntry("NPY_LONGDOUBLE", "npy_longdouble"),
    TypeEntry("NPY_CFLOAT", "npy_cfloat_wrapper"),
    TypeEntry("NPY_CDOUBLE", "npy_cdouble_wrapper"),
    TypeEntry("NPY_CLONGDOUBLE", "npy_clongdouble_wrapper")
  ]

  /** With the shipped tables: 36 ids, the index-only ones being 0 and 18. */
  lemma ShippedTables()
    ensures |AllVariants(I_TYPES, T_TYPES)| == 36
    ensures ITypes(I_TYPES, T_TYPES)[0].id == 0 && ITypes(I_TYPES, T_TYPES)[1].id == 18
    ensures |ItTypes(I_TYPES, T_TYPES)| == 34
  {
    Shape(I_TYPES, T_TYPES);
  }
}
