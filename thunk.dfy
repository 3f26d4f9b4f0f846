/**
 * Code generation for one routine (`parse_routine`): a thunk whose switch
 * has one case per type variant, each calling the routine with the
 * arguments cast for that variant, and a Python method that hands the
 * routine's codes to `call_thunk`.
 */
module Thunk {
  import opened Common
  import opened ArgList
  import TypeMatrix

  /** One `case` of the thunk's switch: the variant id and the call's argument list. */
  datatype Case = Case(id: nat, arglist: string)

  /** A get_arglist closure: (index type, data type) to the call's argument list or an error. */
  type ArglistFn = (string, Option<string>) -> Result<string>

  /** The case for variant v, or the error get_arglist raises for it. */
  function CaseFor(getArglist: ArglistFn, v: TypeMatrix.Variant): Result<Case>
  {
    match getArglist(v.iType, v.tType)
    case Ok(al) => Ok(Case(v.id, al))
    case Err(e) => Err(e)
  }

  /** The cases for the variants in order; the first variant whose argument list fails aborts. */
  function Cases(getArglist: ArglistFn, types: seq<TypeMatrix.Variant>): Result<seq<Case>>
  {
    if types == [] then Ok([])
    else match Cases(getArglist, types[..|types| - 1])
      case Err(e) => Err(e)
      case Ok(cs) =>
        match CaseFor(getArglist, types[|types| - 1])
        case Err(e) => Err(e)
        case Ok(c) => Ok(cs + [c])
  }

  // ---------------------------------------------------------------------
  // The generated text.

  /** The fragments the thunk's text is assembled from. */
  datatype Piece =
    | ThunkOpen(name: string)
    | SwitchOpen
    | Label(id: nat)
    | VoidCall(name: string, arglist: string)
    | ValueCall(name: string, arglist: string)
    | SwitchClose
    | ThunkClose

  function PieceText(p: Piece): string
  {
    match p
    case ThunkOpen(name) => "\nstatic PY_LONG_LONG " + name + "_thunk(int I_typenum, int T_typenum, void **a)\n{\n    "
    case SwitchOpen => "int j = get_thunk_case(I_typenum, T_typenum);\n    switch (j) {"
    case Label(id) => "\n        case " + NatToString(id) + ":"
    case VoidCall(name, al) => "\n            (void)" + name + "(" + al + ");\n            return 0;"
    case ValueCall(name, al) => "\n            return " + name + "(" + al + ");"
    case SwitchClose => "\n    default:\n        throw std::runtime_error(\"internal error: invalid argument typenums\");\n    }"
    case ThunkClose => "\n}\n"
  }

  function Text(ps: seq<Piece>): string
  {
    if ps == [] then "" else Text(ps[..|ps| - 1]) + PieceText(ps[|ps| - 1])
  }

  /** The label and the call of one case; the call discards the result when the routine returns void. */
  function CasePieces(name: string, isVoid: bool, c: Case): seq<Piece>
  {
    [Label(c.id), if isVoid then VoidCall(name, c.arglist) else ValueCall(name, c.arglist)]
  }

  /** The switch statement from its head through the cases cs. */
  function SwitchPieces(name: string, isVoid: bool, cs: seq<Case>): seq<Piece>
  {
    if cs == [] then [SwitchOpen]
    else SwitchPieces(name, isVoid, cs[..|cs| - 1]) + CasePieces(name, isVoid, cs[|cs| - 1])
  }

  /** THUNK_TEMPLATE around the switch content. */
  function ThunkText(name: string, content: seq<Piece>): string
  {
    Text([ThunkOpen(name)] + content + [ThunkClose])
  }

  /** The fixed text of METHOD_TEMPLATE around the routine's name and codes. */
  const MethodHead := "\nPyObject *\n"
  const MethodSignature := "_method(PyObject *self, PyObject *args)\n{\n    return call_thunk('"
  const MethodTail := "_thunk, args);\n}\n"

  /** METHOD_TEMPLATE filled in: the Python method handing the codes to call_thunk. */
  function MethodTemplate(name: string, retSpec: char, argSpec: string): string
  {
    MethodHead + name + MethodSignature + [retSpec] + "', \"" + argSpec + "\", " + name + MethodTail
  }

  /** The two pieces of C++ generated for a routine. */
  datatype RoutineCode = RoutineCode(thunkCode: string, methodCode: string)

  function RenderRoutine(name: string, retSpec: char, argSpec: string, cs: seq<Case>): RoutineCode
  {
    RoutineCode(ThunkText(name, SwitchPieces(name, retSpec == 'v', cs) + [SwitchClose]),
                MethodTemplate(name, retSpec, argSpec))
  }

  /** The thunk and method code for routine `name` with codes `args`, or the first error. */
  function GenerateRoutine(name: string, args: string, types: seq<TypeMatrix.Variant>): Result<RoutineCode>
    requires |args| > 0
  {
    match Cases(ArglistOf(args[1..]), types)
    case Err(e) => Err(e)
    case Ok(cs) => Ok(RenderRoutine(name, args[0], args[1..], cs))
  }

  /**
   * parse_routine(name, args, types).  The first code is the return code
   * and the rest the argument codes; the caller always passes at least one.
   */
  method ParseRoutine(name: string, args: string, types: seq<TypeMatrix.Variant>)
    returns (r: Result<RoutineCode>)
    requires |args| > 0
    ensures r == GenerateRoutine(name, args, types)
  {
    var retSpec := args[0];
    var argSpec := args[1..];
    var isVoid := retSpec == 'v';
    ghost var cases: seq<Case> := [];
    var content := [SwitchOpen];
    for k := 0 to |types|
      invariant Cases(ArglistOf(argSpec), types[..k]) == Ok(cases)
      invariant content == SwitchPieces(name, isVoid, cases)
    {
      var v := types[k];
      assert types[..k + 1][..k] == types[..k] && types[..k + 1][k] == v;
      var arglist := GetArglist(argSpec, v.iType, v.tType);
      assert arglist == ArglistOf(argSpec)(v.iType, v.tType);
      if arglist.Err? {
        CasesAbort(ArglistOf(argSpec), types, k + 1);
        return Err(arglist.error);
      }
      var piece := [Label(v.id)];
      if isVoid {
        piece := piece + [VoidCall(name, arglist.value)];
      } else {
        piece := piece + [ValueCall(name, arglist.value)];
      }
      var c := Case(v.id, arglist.value);
      assert piece == CasePieces(name, isVoid, c);
      assert (cases + [c])[..|cases|] == cases;
      content := content + piece;
      cases := cases + [c];
    }
    assert types[..|types|] == types;
    content := content + [SwitchClose];
    r := Ok(RoutineCode(ThunkText(name, content), MethodTemplate(name, retSpec, argSpec)));
  }

  // ---------------------------------------------------------------------
  // Layout of the generated text.

  /**
   * The switch opens with its head, then holds for case k its label and the
   * call: `(void)name(...); return 0;` for a void routine, `return name(...);`
   * otherwise.
   */
  lemma {:induction false} SwitchLayout(name: string, isVoid: bool, cs: seq<Case>)
    ensures |SwitchPieces(name, isVoid, cs)| == 1 + 2 * |cs| && SwitchPieces(name, isVoid, cs)[0] == SwitchOpen
    ensures forall k :: 0 <= k < |cs| ==>
      SwitchPieces(name, isVoid, cs)[1 + 2 * k] == Label(cs[k].id) &&
      SwitchPieces(name, isVoid, cs)[2 + 2 * k] ==
        (if isVoid then VoidCall(name, cs[k].arglist) else ValueCall(name, cs[k].arglist))
  {
    if cs != [] {
      var init := cs[..|cs| - 1];
      SwitchLayout(name, isVoid, init);
      var ps := SwitchPieces(name, isVoid, cs);
      assert ps == SwitchPieces(name, isVoid, init) + CasePieces(name, isVoid, cs[|cs| - 1]);
      forall k | 0 <= k < |cs| - 1
        ensures ps[1 + 2 * k] == Label(cs[k].id)
        ensures ps[2 + 2 * k] == (if isVoid then VoidCall(name, cs[k].arglist) else ValueCall(name, cs[k].arglist))
      {
        assert cs[k] == init[k];
      }
    }
  }

  /**
   * A generated thunk: one `case j:` per variant of types, in list order,
   * labelled with the variant's id and calling the routine with the argument
   * list marshalled for the variant's types, then the throwing `default`.
   */
  lemma RoutineLayout(name: string, args: string, types: seq<TypeMatrix.Variant>)
    requires |args| > 0 && GenerateRoutine(name, args, types).Ok?
    ensures Cases(ArglistOf(args[1..]), types).Ok?
    ensures var ps := SwitchPieces(name, args[0] == 'v', Cases(ArglistOf(args[1..]), types).value);
      GenerateRoutine(name, args, types).value.thunkCode == ThunkText(name, ps + [SwitchClose]) &&
      |ps| == 1 + 2 * |types| &&
      forall k :: 0 <= k < |types| ==>
        Marshal(args[1..], types[k].iType, types[k].tType).Ok? &&
        var al := RenderList(Marshal(args[1..], types[k].iType, types[k].tType).value);
        ps[1 + 2 * k] == Label(types[k].id) &&
        ps[2 + 2 * k] == (if args[0] == 'v' then VoidCall(name, al) else ValueCall(name, al))
  {
    var f := ArglistOf(args[1..]);
    var cs := Cases(f, types).value;
    CasesValues(f, types);
    SwitchLayout(name, args[0] == 'v', cs);
    forall k | 0 <= k < |types|
      ensures Marshal(args[1..], types[k].iType, types[k].tType).Ok?
      ensures cs[k].arglist == RenderList(Marshal(args[1..], types[k].iType, types[k].tType).value)
    {
      assert f(types[k].iType, types[k].tType) == RenderResult(Marshal(args[1..], types[k].iType, types[k].tType));
    }
  }

  /**
   * The method text carries the codes verbatim: the return code is the
   * character inside `call_thunk('...'`, and the argument codes follow it
   * inside the double quotes, so both can be read back at fixed offsets
   * after the routine's name (the template has 77 fixed characters before
   * the return code, and `', "` between it and the argument codes).
   */
  lemma MethodCarriesCodes(name: string, args: string, types: seq<TypeMatrix.Variant>)
    requires |args| > 0 && GenerateRoutine(name, args, types).Ok?
    ensures var m := GenerateRoutine(name, args, types).value.methodCode;
      var k := 77 + |name|;
      k + 4 + |args| < |m| && m[k] == args[0] && m[k + 5..k + 4 + |args|] == args[1..] && m[k + 4 + |args|] == '"'
  {
    TemplateCodes(name, args[0], args[1..]);
  }

  /** The same read-back on the filled-in template itself. */
  lemma TemplateCodes(name: string, retSpec: char, argSpec: string)
    ensures var m := MethodTemplate(name, retSpec, argSpec);
      var k := 77 + |name|;
      k + 5 + |argSpec| < |m| && m[k] == retSpec && m[k + 5..k + 5 + |argSpec|] == argSpec && m[k + 5 + |argSpec|] == '"'
  {
    var pre := MethodHead + name + MethodSignature;
    var post := "\", " + name + MethodTail;
    var m := MethodTemplate(name, retSpec, argSpec);
    assert |pre| == 77 + |name|;
    assert m == pre + [retSpec] + "', \"" + argSpec + post;
    assert m == (pre + [retSpec] + "', \"") + (argSpec + post);
    assert |pre + [retSpec] + "', \""| == |pre| + 5;
  }

  // ---------------------------------------------------------------------
  // Properties of the cases.

  /** Once marshalling fails for a prefix of the variants, the whole routine fails with that error. */
  lemma {:induction false} CasesAbort(getArglist: ArglistFn, types: seq<TypeMatrix.Variant>, n: nat)
    requires n <= |types| && Cases(getArglist, types[..n]).Err?
    ensures Cases(getArglist, types) == Cases(getArglist, types[..n])
    decreases |types| - n
  {
    if n < |types| {
      assert types[..n + 1][..n] == types[..n];
      CasesAbort(getArglist, types, n + 1);
    } else {
      assert types[..n] == types;
    }
  }

  /** The cases succeed exactly when every variant marshals. */
  lemma {:induction false} CasesOk(getArglist: ArglistFn, types: seq<TypeMatrix.Variant>)
    ensures Cases(getArglist, types).Ok? <==> forall k :: 0 <= k < |types| ==> getArglist(types[k].iType, types[k].tType).Ok?
  {
    if types != [] {
      var n := |types| - 1;
      var init := types[..n];
      CasesOk(getArglist, init);
      assert forall k :: 0 <= k < n ==> init[k] == types[k];
    }
  }

  /** On success there is one case per variant, in order, carrying its id and its argument list. */
  lemma {:induction false} CasesValues(getArglist: ArglistFn, types: seq<TypeMatrix.Variant>)
    requires Cases(getArglist, types).Ok?
    ensures |Cases(getArglist, types).value| == |types|
    ensures forall k :: 0 <= k < |types| ==>
      getArglist(types[k].iType, types[k].tType).Ok? &&
      Cases(getArglist, types).value[k] == Case(types[k].id, getArglist(types[k].iType, types[k].tType).value)
  {
    if types != [] {
      var n := |types| - 1;
      var init := types[..n];
      CasesValues(getArglist, init);
      assert forall k :: 0 <= k < n ==> init[k] == types[k];
    }
  }

  /** When variant k is the first that fails to marshal, the routine fails with its error. */
  lemma {:induction false} CasesFirstError(getArglist: ArglistFn, types: seq<TypeMatrix.Variant>, k: nat)
    requires k < |types| && getArglist(types[k].iType, types[k].tType).Err?
    requires forall u :: 0 <= u < k ==> getArglist(types[u].iType, types[u].tType).Ok?
    ensures Cases(getArglist, types) == Err(getArglist(types[k].iType, types[k].tType).error)
  {
    var pre := types[..k];
    assert forall u :: 0 <= u < k ==> pre[u] == types[u];
    CasesOk(getArglist, pre);
    assert types[..k + 1][..k] == pre && types[..k + 1][k] == types[k];
    CasesAbort(getArglist, types, k + 1);
  }

  // ---------------------------------------------------------------------
  // What the generated switch does.

  /** The index of the case labelled j, or None when control reaches `default` (which throws). */
  function Dispatch(cs: seq<Case>, j: int): (r: Option<nat>)
    ensures r.Some? ==> r.value < |cs| && cs[r.value].id == j
    ensures r.None? <==> forall k :: 0 <= k < |cs| ==> cs[k].id != j
  {
    if cs == [] then None
    else if cs[|cs| - 1].id == j then Some(|cs| - 1)
    else Dispatch(cs[..|cs| - 1], j)
  }

  /** No two cases carry the same label (C++ rejects a switch with duplicate labels). */
  predicate DistinctLabels(cs: seq<Case>)
  {
    forall p, q :: 0 <= p < q < |cs| ==> cs[p].id != cs[q].id
  }

  /** With distinct labels, the switch on case k's label runs case k. */
  lemma DispatchSelects(cs: seq<Case>, k: nat)
    requires DistinctLabels(cs) && k < |cs|
    ensures Dispatch(cs, cs[k].id) == Some(k)
  {
  }

  /** get_thunk_case's "no such variant" answer, -1, always reaches `default`. */
  lemma UnknownReachesDefault(cs: seq<Case>)
    ensures Dispatch(cs, -1) == None
  {
  }

  /** The ids of the index-only variants are pairwise distinct, and so are those of the combined ones. */
  lemma VariantIdsDistinct(it: seq<TypeMatrix.TypeEntry>, tt: seq<TypeMatrix.TypeEntry>)
    ensures forall p, q :: 0 <= p < q < |TypeMatrix.ITypes(it, tt)| ==>
      TypeMatrix.ITypes(it, tt)[p].id != TypeMatrix.ITypes(it, tt)[q].id
    ensures forall p, q :: 0 <= p < q < |TypeMatrix.ItTypes(it, tt)| ==>
      TypeMatrix.ItTypes(it, tt)[p].id != TypeMatrix.ItTypes(it, tt)[q].id
  {
    var all := TypeMatrix.AllVariants(it, tt);
    var n := |TypeMatrix.ITypes(it, tt)|;
    TypeMatrix.IdsExactlyOnce(it, tt);
    forall p, q | 0 <= p < q < n
      ensures TypeMatrix.ITypes(it, tt)[p].id != TypeMatrix.ITypes(it, tt)[q].id
    {
      assert all[p] == TypeMatrix.ITypes(it, tt)[p] && all[q] == TypeMatrix.ITypes(it, tt)[q];
    }
    forall p, q | 0 <= p < q < |TypeMatrix.ItTypes(it, tt)|
      ensures TypeMatrix.ItTypes(it, tt)[p].id != TypeMatrix.ItTypes(it, tt)[q].id
    {
      assert all[n + p] == TypeMatrix.ItTypes(it, tt)[p] && all[n + q] == TypeMatrix.ItTypes(it, tt)[q];
    }
  }

  /** Cases built from variants with pairwise distinct ids have distinct labels. */
  lemma CaseIdsDistinct(getArglist: ArglistFn, types: seq<TypeMatrix.Variant>)
    requires Cases(getArglist, types).Ok?
    requires forall p, q :: 0 <= p < q < |types| ==> types[p].id != types[q].id
    ensures DistinctLabels(Cases(getArglist, types).value)
  {
    CasesValues(getArglist, types);
    var cs := Cases(getArglist, types).value;
    forall p, q | 0 <= p < q < |cs|
      ensures cs[p].id != cs[q].id
    {
      assert cs[p].id == types[p].id && cs[q].id == types[q].id;
    }
  }

  /** A case label's text holds the decimal id between `case ` and the colon. */
  lemma LabelDigits(id: nat)
    ensures var t := PieceText(Label(id));
      14 < |t| && t[14..|t| - 1] == NatToString(id)
  {
  }

  /**
   * Distinct labels are written as distinct `case` texts, so the generated
   * switch never repeats a case label (which C++ would reject).
   */
  lemma LabelTextsDistinct(cs: seq<Case>)
    requires DistinctLabels(cs)
    ensures forall p, q :: 0 <= p < q < |cs| ==> PieceText(Label(cs[p].id)) != PieceText(Label(cs[q].id))
  {
    forall p, q | 0 <= p < q < |cs|
      ensures PieceText(Label(cs[p].id)) != PieceText(Label(cs[q].id))
    {
      LabelDigits(cs[p].id);
      LabelDigits(cs[q].id);
      NatToStringInjective(cs[p].id, cs[q].id);
    }
  }

  /**
   * A routine without 't'/'T' codes, called with the typenums of index type
   * it[k]: get_thunk_case yields that variant's id and the switch runs the
   * case calling the routine with the arguments cast for that index type.
   */
  lemma IndexOnlyCall(it: seq<TypeMatrix.TypeEntry>, tt: seq<TypeMatrix.TypeEntry>,
                      env: map<string, int>, argSpec: string, k: nat)
    requires TypeMatrix.ValidConfig(it, tt, env) && k < |it|
    requires Cases(ArglistOf(argSpec), TypeMatrix.ITypes(it, tt)).Ok?
    ensures TypeMatrix.Bound(TypeMatrix.Getter(it, tt), env)
    ensures var cs := Cases(ArglistOf(argSpec), TypeMatrix.ITypes(it, tt)).value;
      var j := TypeMatrix.EvalGetter(TypeMatrix.Getter(it, tt), env, env[it[k].typenum], -1);
      Dispatch(cs, j) == Some(k) &&
      Ok(cs[k].arglist) == RenderResult(Marshal(argSpec, it[k].ctype, None))
  {
    var types := TypeMatrix.ITypes(it, tt);
    TypeMatrix.LookupIndexOnly(it, tt, env, k);
    TypeMatrix.Shape(it, tt);
    CasesValues(ArglistOf(argSpec), types);
    VariantIdsDistinct(it, tt);
    CaseIdsDistinct(ArglistOf(argSpec), types);
    DispatchSelects(Cases(ArglistOf(argSpec), types).value, k);
  }

  /**
   * A routine with 't'/'T' codes, called with the typenums of variant p of
   * it_types: get_thunk_case yields its id and the switch runs the case
   * calling the routine with the arguments cast for that pair of types.
   */
  lemma CombinedCall(it: seq<TypeMatrix.TypeEntry>, tt: seq<TypeMatrix.TypeEntry>,
                     env: map<string, int>, argSpec: string, p: nat)
    requires TypeMatrix.ValidConfig(it, tt, env) && p < |TypeMatrix.ItTypes(it, tt)|
    requires Cases(ArglistOf(argSpec), TypeMatrix.ItTypes(it, tt)).Ok?
    ensures TypeMatrix.Bound(TypeMatrix.Getter(it, tt), env)
    ensures var v := TypeMatrix.ItTypes(it, tt)[p];
      v.tTypenum.Some? && v.iTypenum in env && v.tTypenum.value in env &&
      var cs := Cases(ArglistOf(argSpec), TypeMatrix.ItTypes(it, tt)).value;
      var j := TypeMatrix.EvalGetter(TypeMatrix.Getter(it, tt), env, env[v.iTypenum], env[v.tTypenum.value]);
      Dispatch(cs, j) == Some(p) &&
      Ok(cs[p].arglist) == RenderResult(Marshal(argSpec, v.iType, v.tType))
  {
    var types := TypeMatrix.ItTypes(it, tt);
    TypeMatrix.LookupCombined(it, tt, env, p);
    CasesValues(ArglistOf(argSpec), types);
    VariantIdsDistinct(it, tt);
    CaseIdsDistinct(ArglistOf(argSpec), types);
    DispatchSelects(Cases(ArglistOf(argSpec), types).value, p);
  }

  /**
   * Typenums get_thunk_case does not know (no index typenum matches, or a
   * data typenum other than -1 matches no data type) reach `default`.
   */
  lemma UnknownTypenumsThrow(it: seq<TypeMatrix.TypeEntry>, tt: seq<TypeMatrix.TypeEntry>,
                             env: map<string, int>, cs: seq<Case>, iNum: int, tNum: int)
    requires TypeMatrix.ValidConfig(it, tt, env)
    requires (forall k :: 0 <= k < |it| ==> env[it[k].typenum] != iNum) ||
             (tNum != -1 && forall t :: 0 <= t < |tt| ==> env[tt[t].typenum] != tNum)
    ensures TypeMatrix.Bound(TypeMatrix.Getter(it, tt), env)
    ensures Dispatch(cs, TypeMatrix.EvalGetter(TypeMatrix.Getter(it, tt), env, iNum, tNum)) == None
  {
    TypeMatrix.LookupMiss(it, tt, env, iNum, tNum);
  }
}
