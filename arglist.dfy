/**
 * The argument marshaller (`get_arglist`): walks the argument codes of a
 * routine and produces one C++ cast expression per code, reading the
 * positional slots `a[0], a[1], ...` in turn.  A `*` produces nothing; it
 * makes the one following code writable (not `const`).
 */
module ArgList {
  import opened Common

  /** One cast expression of the generated call. */
  datatype Arg =
    | Scalar(isConst: bool, ctype: string, slot: nat)    // *(const X*)a[j]
    | Pointer(isConst: bool, ctype: string, slot: nat)   // (const X*)a[j]
    | Vector(elem: string, slot: nat)                    // (std::vector<X>*)a[j]

  function ConstPrefix(isConst: bool): string
  {
    if isConst then "const " else ""
  }

  /** Python's `str(x)` for a C++ type name or `None`. */
  function PyStr(x: Option<string>): string
  {
    match x
    case Some(s) => s
    case None => "None"
  }

  function Render(a: Arg): string
  {
    match a
    case Scalar(c, t, j) => "*(" + ConstPrefix(c) + t + "*)a[" + NatToString(j) + "]"
    case Pointer(c, t, j) => "(" + ConstPrefix(c) + t + "*)a[" + NatToString(j) + "]"
    case Vector(t, j) => "(std::vector<" + t + ">*)a[" + NatToString(j) + "]"
  }

  /** `", ".join(args)` */
  function RenderList(args: seq<Arg>): string
  {
    Join(", ", seq(|args|, i requires 0 <= i < |args| => Render(args[i])))
  }

  function RenderResult(r: Result<seq<Arg>>): Result<string>
  {
    match r
    case Ok(args) => Ok(RenderList(args))
    case Err(e) => Err(e)
  }

  /** get_arglist: the closure over the argument codes that maps an (index, data) type pair to its call's argument list. */
  function ArglistOf(argSpec: string): (string, Option<string>) -> Result<string>
  {
    (iType: string, tType: Option<string>) => RenderResult(Marshal(argSpec, iType, tType))
  }

  /**
   * Whether code c is accepted by the marshaller: the seven argument codes,
   * except that 'V' and 'W' need the writable flag and 'T' needs a data type.
   */
  predicate Acceptable(c: char, writable: bool, tType: Option<string>)
  {
    c == 'i' || c == 'I' || c == 'B' || c == 'l' ||
    (c == 'T' && tType.Some?) ||
    ((c == 'V' || c == 'W') && writable)
  }

  /** The error the marshaller raises for a code it does not accept. */
  function ErrorFor(c: char): GenError
  {
    if c == 'V' || c == 'W' then NotOutputArg(c)
    else if c == 'T' then NoDataType
    else InvalidSpecChar(c)
  }

  /** The expression for one non-`*` code read from slot j. */
  function Cast(c: char, writable: bool, iType: string, tType: Option<string>, slot: nat): (r: Result<Arg>)
    ensures r.Ok? <==> Acceptable(c, writable, tType)
    ensures r.Err? ==> r.error == ErrorFor(c)
    ensures r.Ok? ==> r.value.slot == slot
  {
    var isConst := !writable;
    if c == 'i' then Ok(Scalar(isConst, iType, slot))
    else if c == 'I' then Ok(Pointer(isConst, iType, slot))
    else if c == 'T' then
      (match tType
       case Some(t) => Ok(Pointer(isConst, t, slot))
       case None => Err(NoDataType))     // 'const ' + None is a TypeError
    else if c == 'B' then Ok(Pointer(false, "npy_bool_wrapper", slot))
    else if c == 'V' then (if isConst then Err(NotOutputArg('V')) else Ok(Vector(iType, slot)))
    else if c == 'W' then (if isConst then Err(NotOutputArg('W')) else Ok(Vector(PyStr(tType), slot)))
    else if c == 'l' then Ok(Scalar(isConst, "npy_int64", slot))
    else Err(InvalidSpecChar(c))
  }

  /**
   * The marshaller's result for the codes s, when the flag set by a preceding
   * `*` is `writable` and the next slot to read is `slot`.
   */
  function MarshalFrom(s: string, writable: bool, slot: nat, iType: string, tType: Option<string>): Result<seq<Arg>>
    decreases |s|
  {
    if s == [] then Ok([])
    else if s[0] == '*' then MarshalFrom(s[1..], true, slot, iType, tType)
    else match Cast(s[0], writable, iType, tType, slot)
      case Err(e) => Err(e)
      case Ok(a) => Prepend([a], MarshalFrom(s[1..], false, slot + 1, iType, tType))
  }

  function Marshal(s: string, iType: string, tType: Option<string>): Result<seq<Arg>>
  {
    MarshalFrom(s, false, 0, iType, tType)
  }

  /** get_arglist(I_type, T_type) for the argument codes argSpec. */
  method GetArglist(argSpec: string, iType: string, tType: Option<string>) returns (r: Result<string>)
    ensures r == RenderResult(Marshal(argSpec, iType, tType))
  {
    assert argSpec[0..] == argSpec;
    PrependNil(Marshal(argSpec, iType, tType));
    var args: seq<Arg> := [];
    var nextIsWriteable := false;
    var j: nat := 0;
    for i := 0 to |argSpec|
      invariant j == |args|
      invariant nextIsWriteable == (i > 0 && argSpec[i - 1] == '*')
      invariant Marshal(argSpec, iType, tType) ==
        Prepend(args, MarshalFrom(argSpec[i..], nextIsWriteable, j, iType, tType))
    {
      var t := argSpec[i];
      var isConst := !nextIsWriteable;
      assert argSpec[i..][0] == t && argSpec[i..][1..] == argSpec[i + 1..];
      PrependAssoc(args, [], MarshalFrom(argSpec[i + 1..], true, j, iType, tType));
      nextIsWriteable := false;
      if t == '*' {
        nextIsWriteable := true;
      } else {
        var a: Arg;
        if t == 'i' {
          a := Scalar(isConst, iType, j);
        } else if t == 'I' {
          a := Pointer(isConst, iType, j);
        } else if t == 'T' {
          if tType.None? {
            return Err(NoDataType);
          }
          a := Pointer(isConst, tType.value, j);
        } else if t == 'B' {
          a := Pointer(false, "npy_bool_wrapper", j);
        } else if t == 'V' {
          if isConst {
            return Err(NotOutputArg('V'));
          }
          a := Vector(iType, j);
        } else if t == 'W' {
          if isConst {
            return Err(NotOutputArg('W'));
          }
          a := Vector(PyStr(tType), j);
        } else if t == 'l' {
          a := Scalar(isConst, "npy_int64", j);
        } else {
          return Err(InvalidSpecChar(t));
        }
        PrependAssoc(args, [a], MarshalFrom(argSpec[i + 1..], false, j + 1, iType, tType));
        args := args + [a];
        j := j + 1;
      }
    }
    assert argSpec[|argSpec|..] == [] && args + [] == args;
    r := Ok(RenderList(args));
  }

  // ---------------------------------------------------------------------
  // Properties of the marshaller.

  /** Number of codes other than `*`. */
  function Rank(s: string): nat
  {
    if s == [] then 0 else (if s[0] == '*' then 0 else 1) + Rank(s[1..])
  }

  /** Whether the code at position i is writable: the character before it is `*`. */
  predicate WritableAt(s: string, writable: bool, i: nat)
    requires i < |s|
  {
    if i == 0 then writable else s[i - 1] == '*'
  }

  lemma {:induction false} RankPrefix(s: string, i: nat)
    requires 0 < i <= |s|
    ensures Rank(s[..i]) == (if s[0] == '*' then 0 else 1) + Rank(s[1..][..i - 1])
  {
    assert s[..i][1..] == s[1..][..i - 1];
  }

  lemma {:induction false} RankBound(s: string, i: nat)
    requires i < |s| && s[i] != '*'
    ensures Rank(s[..i]) < Rank(s)
  {
    if i > 0 {
      RankPrefix(s, i);
      RankBound(s[1..], i - 1);
    } else {
      assert s[..0] == [];
    }
  }

  lemma {:induction false} RankAppend(a: string, b: string)
    ensures Rank(a + b) == Rank(a) + Rank(b)
  {
    if a == [] {
      assert a + b == b;
    } else {
      assert (a + b)[0] == a[0] && (a + b)[1..] == a[1..] + b;
      RankAppend(a[1..], b);
    }
  }

  /** A prefix without `*` has one expression per code. */
  lemma {:induction false} RankPlain(s: string, i: nat)
    requires i <= |s| && forall j :: 0 <= j < i ==> s[j] != '*'
    ensures Rank(s[..i]) == i
  {
    if i > 0 {
      assert s[..i] == s[..i - 1] + [s[i - 1]];
      RankAppend(s[..i - 1], [s[i - 1]]);
      RankPlain(s, i - 1);
    }
  }

  /**
   * On success there is one expression per non-`*` code, and expression p
   * reads slot slot + p: the slots are consecutive.
   */
  lemma {:induction false} MarshalShape(s: string, w: bool, slot: nat, iType: string, tType: Option<string>)
    requires MarshalFrom(s, w, slot, iType, tType).Ok?
    ensures |MarshalFrom(s, w, slot, iType, tType).value| == Rank(s)
    ensures forall p :: 0 <= p < Rank(s) ==> MarshalFrom(s, w, slot, iType, tType).value[p].slot == slot + p
  {
    if s != [] {
      if s[0] == '*' {
        MarshalShape(s[1..], true, slot, iType, tType);
      } else {
        MarshalShape(s[1..], false, slot + 1, iType, tType);
      }
    }
  }

  /**
   * On success the code at position i (not `*`) yields expression number
   * Rank(s[..i]), namely its Cast with the const-ness decided by the
   * character right before it.
   */
  lemma {:induction false} MarshalAt(s: string, w: bool, slot: nat, iType: string, tType: Option<string>, i: nat)
    requires MarshalFrom(s, w, slot, iType, tType).Ok?
    requires i < |s| && s[i] != '*'
    ensures Rank(s[..i]) < |MarshalFrom(s, w, slot, iType, tType).value|
    ensures Cast(s[i], WritableAt(s, w, i), iType, tType, slot + Rank(s[..i]))
         == Ok(MarshalFrom(s, w, slot, iType, tType).value[Rank(s[..i])])
  {
    MarshalShape(s, w, slot, iType, tType);
    RankBound(s, i);
    if i == 0 {
      assert s[..0] == [];
    } else {
      RankPrefix(s, i);
      if s[0] == '*' {
        MarshalAt(s[1..], true, slot, iType, tType, i - 1);
      } else {
        MarshalAt(s[1..], false, slot + 1, iType, tType, i - 1);
      }
    }
  }

  /** If every non-`*` code is acceptable where it stands, marshalling succeeds. */
  lemma {:induction false} MarshalSucceeds(s: string, w: bool, slot: nat, iType: string, tType: Option<string>)
    requires forall i :: 0 <= i < |s| && s[i] != '*' ==> Acceptable(s[i], WritableAt(s, w, i), tType)
    ensures MarshalFrom(s, w, slot, iType, tType).Ok?
  {
    if s != [] {
      var w' := s[0] == '*';
      forall i | 0 <= i < |s[1..]| && s[1..][i] != '*'
        ensures Acceptable(s[1..][i], WritableAt(s[1..], w', i), tType)
      {
        assert s[1..][i] == s[i + 1];
      }
      MarshalSucceeds(s[1..], w', if w' then slot else slot + 1, iType, tType);
    }
  }

  /**
   * If position i holds the first non-`*` code that is not acceptable,
   * marshalling fails with that code's error.
   */
  lemma {:induction false} MarshalFails(s: string, w: bool, slot: nat, iType: string, tType: Option<string>, i: nat)
    requires i < |s| && s[i] != '*' && !Acceptable(s[i], WritableAt(s, w, i), tType)
    requires forall i' :: 0 <= i' < i && s[i'] != '*' ==> Acceptable(s[i'], WritableAt(s, w, i'), tType)
    ensures MarshalFrom(s, w, slot, iType, tType) == Err(ErrorFor(s[i]))
  {
    if i > 0 {
      var w' := s[0] == '*';
      forall i' | 0 <= i' < i - 1 && s[1..][i'] != '*'
        ensures Acceptable(s[1..][i'], WritableAt(s[1..], w', i'), tType)
      {
        assert s[1..][i'] == s[i' + 1];
      }
      MarshalFails(s[1..], w', if w' then slot else slot + 1, iType, tType, i - 1);
    }
  }

  /** Whether the code at position i of the argument codes is marked by a `*` right before it. */
  predicate Marked(s: string, i: nat)
    requires i < |s|
  {
    i > 0 && s[i - 1] == '*'
  }

  /**
   * 'i', 'I', 'T' and 'l' are const exactly when not marked; 'B' is never
   * const; 'l' is always npy_int64; 'V'/'W' are vectors of the index / data type.
   */
  lemma Qualifiers(s: string, iType: string, tType: Option<string>, i: nat)
    requires Marshal(s, iType, tType).Ok?
    requires i < |s| && s[i] != '*'
    ensures Rank(s[..i]) < |Marshal(s, iType, tType).value|
    ensures var a := Marshal(s, iType, tType).value[Rank(s[..i])];
      (s[i] in "iITl" ==> (a.Scalar? || a.Pointer?) && a.isConst == !Marked(s, i)) &&
      (s[i] == 'B' ==> a == Pointer(false, "npy_bool_wrapper", Rank(s[..i]))) &&
      (s[i] == 'l' ==> a == Scalar(!Marked(s, i), "npy_int64", Rank(s[..i]))) &&
      (s[i] == 'V' ==> Marked(s, i) && a == Vector(iType, Rank(s[..i]))) &&
      (s[i] == 'W' ==> Marked(s, i) && a == Vector(PyStr(tType), Rank(s[..i])))
  {
    MarshalAt(s, false, 0, iType, tType, i);
  }

  /** A trailing `*` is silently dropped. */
  lemma {:induction false} TrailingStarDropped(s: string, w: bool, slot: nat, iType: string, tType: Option<string>)
    ensures MarshalFrom(s + "*", w, slot, iType, tType) == MarshalFrom(s, w, slot, iType, tType)
  {
    if s == [] {
      assert ("*")[1..] == [];
    } else {
      assert (s + "*")[1..] == s[1..] + "*";
      if s[0] == '*' {
        TrailingStarDropped(s[1..], true, slot, iType, tType);
      } else {
        TrailingStarDropped(s[1..], false, slot + 1, iType, tType);
      }
    }
  }

  /** A doubled `*` acts as a single one. */
  lemma DoubledStarCollapses(s: string, w: bool, slot: nat, iType: string, tType: Option<string>)
    ensures MarshalFrom("**" + s, w, slot, iType, tType) == MarshalFrom("*" + s, w, slot, iType, tType)
  {
    assert ("**" + s)[1..] == "*" + s;
    assert ("*" + s)[1..] == s;
  }

  /**
   * Marshalling distributes over concatenation: the codes q after a prefix p
   * that does not end in `*` are marshalled from the next slot, unmarked.
   */
  lemma {:induction false} MarshalAppend(p: string, q: string, w: bool, slot: nat, iType: string, tType: Option<string>)
    requires p != [] && p[|p| - 1] != '*'
    requires MarshalFrom(p, w, slot, iType, tType).Ok?
    ensures MarshalFrom(p + q, w, slot, iType, tType) ==
      Prepend(MarshalFrom(p, w, slot, iType, tType).value, MarshalFrom(q, false, slot + Rank(p), iType, tType))
  {
    assert (p + q)[1..] == p[1..] + q;
    var w' := p[0] == '*';
    var slot' := if w' then slot else slot + 1;
    if |p| == 1 {
      assert p[1..] == [];
      var a := MarshalFrom(p, w, slot, iType, tType).value[0];
      assert MarshalFrom(p, w, slot, iType, tType).value == [a] + [];
      assert [a] + [] == [a];
    } else {
      assert p[1..][|p| - 2] == p[|p| - 1];
      MarshalAppend(p[1..], q, w', slot', iType, tType);
      if !w' {
        var a := MarshalFrom(p, w, slot, iType, tType).value[0];
        PrependAssoc([a], MarshalFrom(p[1..], false, slot', iType, tType).value,
                     MarshalFrom(q, false, slot + Rank(p), iType, tType));
      }
    }
  }

  /** `*T`: one writable pointer to the data type. */
  lemma MarkedData(q: string, slot: nat, iType: string, tType: string)
    requires |q| == 2 && q[0] == '*' && q[1] == 'T'
    ensures MarshalFrom(q, false, slot, iType, Some(tType)) == Ok([Pointer(false, tType, slot)])
  {
    assert q[1..][0] == 'T' && q[1..][1..] == [];
    assert MarshalFrom(q[1..][1..], false, slot + 1, iType, Some(tType)) == Ok([]);
    assert [Pointer(false, tType, slot)] + [] == [Pointer(false, tType, slot)];
    assert MarshalFrom(q[1..], true, slot, iType, Some(tType)) == Ok([Pointer(false, tType, slot)]);
  }

  /**
   * A routine whose last argument is a writable data array (`...*T`, like
   * bsr_diagonal's `iiiiiIIT*T`): the expressions for the leading codes p,
   * then one writable pointer to the data type reading the next slot.  For
   * bsr_diagonal, p has 8 codes, so there are 9 expressions, a[0]..a[8].
   */
  lemma OutputLast(p: string, q: string, iType: string, tType: string)
    requires p != [] && p[|p| - 1] != '*'
    requires MarshalFrom(p, false, 0, iType, Some(tType)).Ok?
    requires |q| == 2 && q[0] == '*' && q[1] == 'T'
    ensures MarshalFrom(p + q, false, 0, iType, Some(tType)) ==
      Ok(MarshalFrom(p, false, 0, iType, Some(tType)).value + [Pointer(false, tType, Rank(p))])
    ensures (forall j :: 0 <= j < |p| ==> p[j] != '*') ==>
      |MarshalFrom(p + q, false, 0, iType, Some(tType)).value| == |p| + 1
  {
    MarshalAppend(p, q, false, 0, iType, Some(tType));
    MarkedData(q, Rank(p), iType, tType);
    MarshalShape(p, false, 0, iType, Some(tType));
    if forall j :: 0 <= j < |p| ==> p[j] != '*' {
      RankPlain(p, |p|);
      assert p[..|p|] == p;
    }
  }
}
