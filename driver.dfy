/**
 * The line driver of the generator: how `main` turns each compilation unit's
 * routine table into thunks and methods, rejects duplicate routine names
 * across units, and serialises the collected names into the forward
 * declarations and the method table of sparsetools_impl.h.
 */
module Driver {
  import opened Common
  import TypeMatrix
  import Thunk

  // ---------------------------------------------------------------------
  // Python's notion of whitespace and of line boundaries.

  /** The characters `str.isspace` accepts (and `str.split()`/`str.strip()` remove). */
  predicate IsSpace(c: char)
  {
    c == ' ' || '\t' <= c <= '\r' || '\U{1c}' <= c <= '\U{1f}' || c == '\U{85}' || c == '\U{a0}' ||
    c == '\U{1680}' || '\U{2000}' <= c <= '\U{200a}' || c == '\U{2028}' || c == '\U{2029}' ||
    c == '\U{202f}' || c == '\U{205f}' || c == '\U{3000}'
  }

  /** The characters `str.splitlines` ends a line at (`\r\n` counts once). */
  predicate IsLineBreak(c: char)
  {
    '\n' <= c <= '\r' || '\U{1c}' <= c <= '\U{1e}' || c == '\U{85}' || c == '\U{2028}' || c == '\U{2029}'
  }

  predicate NoSpace(s: string)
  {
    forall i :: 0 <= i < |s| ==> !IsSpace(s[i])
  }

  // ---------------------------------------------------------------------
  // String helpers: strip, splitlines, split(None, 1), "".join(s.split()).

  /** `s.lstrip()`: the suffix of s from its first non-whitespace character on. */
  function TrimStart(s: string): (r: string)
    ensures |r| <= |s|
  {
    if s != [] && IsSpace(s[0]) then TrimStart(s[1..]) else s
  }

  /** lstrip removes exactly the leading whitespace. */
  lemma {:induction false} TrimStartSpec(s: string)
    ensures TrimStart(s) == s[|s| - |TrimStart(s)|..]
    ensures forall i :: 0 <= i < |s| - |TrimStart(s)| ==> IsSpace(s[i])
    ensures TrimStart(s) == [] || !IsSpace(TrimStart(s)[0])
  {
    if s != [] && IsSpace(s[0]) {
      TrimStartSpec(s[1..]);
      forall i | 0 < i < |s| - |TrimStart(s)|
        ensures IsSpace(s[i])
      {
        assert s[i] == s[1..][i - 1];
      }
    }
  }

  /** `s.rstrip()`: the prefix of s up to its last non-whitespace character. */
  function TrimEnd(s: string): (r: string)
    ensures |r| <= |s|
  {
    if s != [] && IsSpace(s[|s| - 1]) then TrimEnd(s[..|s| - 1]) else s
  }

  /** rstrip removes exactly the trailing whitespace. */
  lemma {:induction false} TrimEndSpec(s: string)
    ensures TrimEnd(s) == s[..|TrimEnd(s)|]
    ensures forall i :: |TrimEnd(s)| <= i < |s| ==> IsSpace(s[i])
    ensures TrimEnd(s) == [] || !IsSpace(TrimEnd(s)[|TrimEnd(s)| - 1])
  {
    if s != [] && IsSpace(s[|s| - 1]) {
      TrimEndSpec(s[..|s| - 1]);
    }
  }

  /** `s.strip()`. */
  function Strip(s: string): string
  {
    TrimEnd(TrimStart(s))
  }

  /**
   * Stripping removes whitespace from both ends and nothing else: the result
   * is a slice of s with whitespace only outside it, and it neither begins
   * nor ends with whitespace.
   */
  lemma StripSpec(s: string)
    ensures Strip(s) == [] || (!IsSpace(Strip(s)[0]) && !IsSpace(Strip(s)[|Strip(s)| - 1]))
    ensures exists lo, hi ::
      0 <= lo <= hi <= |s| && Strip(s) == s[lo..hi] &&
      (forall i :: 0 <= i < lo ==> IsSpace(s[i])) && (forall i :: hi <= i < |s| ==> IsSpace(s[i]))
  {
    StripEnds(s);
    var lo := |s| - |TrimStart(s)|;
    var hi := lo + |Strip(s)|;
    TrimStartSpec(s);
    TrimEndSpec(TrimStart(s));
    StripTrailing(s);
    assert Strip(s) == s[lo..hi];
  }

  lemma StripEnds(s: string)
    ensures Strip(s) == [] || (!IsSpace(Strip(s)[0]) && !IsSpace(Strip(s)[|Strip(s)| - 1]))
  {
    var t := TrimStart(s);
    TrimStartSpec(s);
    TrimEndSpec(t);
    if Strip(s) != [] {
      assert Strip(s)[0] == t[0];
    }
  }

  lemma StripTrailing(s: string)
    ensures forall i :: |s| - |TrimStart(s)| + |Strip(s)| <= i < |s| ==> IsSpace(s[i])
  {
    var t := TrimStart(s);
    var lo := |s| - |t|;
    TrimStartSpec(s);
    TrimEndSpec(t);
    forall i | lo + |Strip(s)| <= i < |s|
      ensures IsSpace(s[i])
    {
      assert s[i] == t[i - lo];
    }
  }

  /**
   * The lines of `text` accumulated after `cur`, as `str.splitlines` gives
   * them: a `\r\n` pair ends one line, and a final boundary opens no empty line.
   */
  function LinesFrom(text: string, cur: string): seq<string>
    decreases |text|
  {
    if text == [] then (if cur == [] then [] else [cur])
    else if |text| > 1 && text[0] == '\r' && text[1] == '\n' then [cur] + LinesFrom(text[2..], [])
    else if IsLineBreak(text[0]) then [cur] + LinesFrom(text[1..], [])
    else LinesFrom(text[1..], cur + [text[0]])
  }

  /** `text.splitlines()`. */
  function SplitLines(text: string): seq<string>
  {
    LinesFrom(text, [])
  }

  predicate NoBreak(s: string)
  {
    forall i :: 0 <= i < |s| ==> !IsLineBreak(s[i])
  }

  lemma {:induction false} LinesFromNoBreaks(text: string, cur: string)
    requires NoBreak(cur)
    ensures forall k :: 0 <= k < |LinesFrom(text, cur)| ==> NoBreak(LinesFrom(text, cur)[k])
    decreases |text|
  {
    if text == [] {
    } else if |text| > 1 && text[0] == '\r' && text[1] == '\n' {
      LinesFromNoBreaks(text[2..], []);
    } else if IsLineBreak(text[0]) {
      LinesFromNoBreaks(text[1..], []);
    } else {
      LinesFromNoBreaks(text[1..], cur + [text[0]]);
    }
  }

  /** No line handed to the loop contains a line boundary. */
  lemma LinesHaveNoBreaks(text: string)
    ensures forall k :: 0 <= k < |SplitLines(text)| ==> NoBreak(SplitLines(text)[k])
  {
    LinesFromNoBreaks(text, []);
  }

  /** A text without boundaries is read as itself, one line. */
  lemma {:induction false} SingleLine(text: string, cur: string)
    requires NoBreak(text)
    requires cur + text != []
    ensures LinesFrom(text, cur) == [cur + text]
    decreases |text|
  {
    if text == [] {
      assert cur + text == cur;
    } else {
      assert !IsLineBreak(text[0]);
      assert (cur + [text[0]]) + text[1..] == cur + text;
      SingleLine(text[1..], cur + [text[0]]);
    }
  }

  /** The longest prefix of s without whitespace: the first field of a line. */
  function Word(s: string): (r: string)
    ensures |r| <= |s|
  {
    if s == [] || IsSpace(s[0]) then [] else [s[0]] + Word(s[1..])
  }

  /** The first field holds no whitespace and ends at the first whitespace or at the end. */
  lemma {:induction false} WordSpec(s: string)
    ensures Word(s) == s[..|Word(s)|]
    ensures NoSpace(Word(s))
    ensures |Word(s)| == |s| || IsSpace(s[|Word(s)|])
  {
    if s != [] && !IsSpace(s[0]) {
      WordSpec(s[1..]);
      var w := Word(s[1..]);
      assert Word(s) == [s[0]] + w;
      assert |w| == |s[1..]| || s[|Word(s)|] == s[1..][|w|];
    }
  }

  /**
   * `s.split(None, 1)`: no field for a blank string, the first field alone
   * when nothing but whitespace follows it, and otherwise the first field
   * and the rest of the string from its next non-whitespace character on.
   */
  function SplitOnce(s: string): (r: seq<string>)
    ensures |r| <= 2
    ensures |r| == 2 ==> r[1] != [] && !IsSpace(r[1][0])
  {
    var t := TrimStart(s);
    if t == [] then []
    else
      var w := Word(t);
      var rest := TrimStart(t[|w|..]);
      TrimStartSpec(t[|w|..]);
      if rest == [] then [w] else [w, rest]
  }

  /**
   * On a stripped, non-blank line the split gives one field exactly when the
   * line holds no whitespace, and the first field is a non-empty run of
   * non-whitespace where the line begins.
   */
  lemma SplitStripped(line: string)
    requires line != [] && !IsSpace(line[0]) && !IsSpace(line[|line| - 1])
    ensures |SplitOnce(line)| == 2 <==> !NoSpace(line)
    ensures var f := SplitOnce(line);
      1 <= |f| && f[0] != [] && NoSpace(f[0]) && line[..|f[0]|] == f[0]
  {
    WordSpec(line);
    WordNonEmpty(line);
    if NoSpace(line) {
      SplitSolid(line);
    } else {
      SplitSpaced(line);
    }
  }

  /** A line without whitespace is one field. */
  lemma SplitSolid(line: string)
    requires line != [] && !IsSpace(line[0]) && NoSpace(line)
    ensures SplitOnce(line) == [Word(line)]
  {
    assert TrimStart(line) == line;
    WordWhole(line);
    assert line[|line|..] == [];
  }

  /** A stripped line holding whitespace is two fields, the first being its first word. */
  lemma SplitSpaced(line: string)
    requires line != [] && !IsSpace(line[0]) && !IsSpace(line[|line| - 1]) && !NoSpace(line)
    ensures |SplitOnce(line)| == 2 && SplitOnce(line)[0] == Word(line)
  {
    assert TrimStart(line) == line;
    var w := Word(line);
    var i :| 0 <= i < |line| && IsSpace(line[i]);
    WordStops(line, i);
    var tail := line[|w|..];
    assert tail[|tail| - 1] == line[|line| - 1];
    TrimStartKeepsLast(tail);
  }

  lemma WordNonEmpty(s: string)
    requires s != [] && !IsSpace(s[0])
    ensures Word(s) != []
  {
    assert Word(s) == [s[0]] + Word(s[1..]);
  }

  lemma WordWhole(s: string)
    requires NoSpace(s)
    ensures Word(s) == s
  {
    WordSpec(s);
    assert s[..|s|] == s;
  }

  lemma WordStops(s: string, i: nat)
    requires i < |s| && IsSpace(s[i])
    ensures |Word(s)| <= i
  {
    WordSpec(s);
    assert forall j :: 0 <= j < |Word(s)| ==> Word(s)[j] == s[j];
  }

  lemma TrimStartKeepsLast(s: string)
    requires s != [] && !IsSpace(s[|s| - 1])
    ensures TrimStart(s) != []
  {
    TrimStartSpec(s);
  }

  /** `"".join(s.split())`: every whitespace character removed. */
  function RemoveSpaces(s: string): (r: string)
    ensures |r| <= |s|
  {
    if s == [] then []
    else if IsSpace(s[0]) then RemoveSpaces(s[1..])
    else [s[0]] + RemoveSpaces(s[1..])
  }

  /** Removing whitespace keeps every other character and leaves no whitespace. */
  lemma {:induction false} RemoveSpacesSpec(s: string)
    ensures NoSpace(RemoveSpaces(s))
    ensures forall c :: !IsSpace(c) ==> (c in RemoveSpaces(s) <==> c in s)
  {
    if s != [] {
      RemoveSpacesSpec(s[1..]);
      assert s == [s[0]] + s[1..];
    }
  }

  /**
   * Removing whitespace works piece by piece: the non-whitespace characters
   * of a + b keep their order, those of a before those of b.
   */
  lemma {:induction false} RemoveSpacesAppend(a: string, b: string)
    ensures RemoveSpaces(a + b) == RemoveSpaces(a) + RemoveSpaces(b)
    decreases |a|
  {
    if a == [] {
      assert a + b == b;
    } else {
      assert (a + b)[0] == a[0] && (a + b)[1..] == a[1..] + b;
      RemoveSpacesAppend(a[1..], b);
    }
  }

  /** A text without whitespace is left as it is: every character kept, in order. */
  lemma {:induction false} RemoveSpacesKeeps(s: string)
    requires NoSpace(s)
    ensures RemoveSpaces(s) == s
  {
    if s != [] {
      assert NoSpace(s[1..]) by {
        forall i | 0 <= i < |s[1..]|
          ensures !IsSpace(s[1..][i])
        {
          assert s[1..][i] == s[i + 1];
        }
      }
      RemoveSpacesKeeps(s[1..]);
      assert s == [s[0]] + s[1..];
    }
  }

  /** Leading whitespace does not change what removing whitespace leaves. */
  lemma {:induction false} RemoveSpacesTrimStart(s: string)
    ensures RemoveSpaces(TrimStart(s)) == RemoveSpaces(s)
  {
    if s != [] && IsSpace(s[0]) {
      RemoveSpacesTrimStart(s[1..]);
    }
  }

  // ---------------------------------------------------------------------
  // One line of a routine table.

  /** The codes of a routine line: never empty, as the line has a second field. */
  type Codes = s: string | s != [] witness "v"

  /** A routine line: the routine's name and its codes (return code first). */
  datatype Routine = Routine(name: string, codes: Codes)

  /**
   * What the loop body makes of one raw line: nothing for a blank or comment
   * line, a Malformed line error for a line with a single field, and
   * otherwise the name and the codes with all whitespace removed.
   */
  function ParseLine(raw: string): Result<Option<Routine>>
  {
    var line := Strip(raw);
    if line == [] || line[0] == '#' then Ok(None)
    else
      var fields := SplitOnce(line);
      if |fields| != 2 then Err(MalformedLine(line))
      else
        RemoveSpacesSpec(fields[1]);
        assert fields[1][0] in RemoveSpaces(fields[1]);
        Ok(Some(Routine(fields[0], RemoveSpaces(fields[1]))))
  }

  /**
   * Which lines are skipped, which are malformed, and what a routine line
   * yields: a name without whitespace where the stripped line begins, and
   * codes without whitespace holding every other character of the rest.
   */
  lemma ParseLineCases(raw: string)
    ensures ParseLine(raw) == Ok(None) <==> Strip(raw) == [] || Strip(raw)[0] == '#'
    ensures ParseLine(raw).Err? <==> Strip(raw) != [] && Strip(raw)[0] != '#' && NoSpace(Strip(raw))
    ensures ParseLine(raw).Err? ==> ParseLine(raw).error == MalformedLine(Strip(raw))
    ensures ParseLine(raw).Ok? && ParseLine(raw).value.Some? ==>
      var rt := ParseLine(raw).value.value;
      var line := Strip(raw);
      rt.name != [] && NoSpace(rt.name) && NoSpace(rt.codes) &&
      |rt.name| < |line| && line[..|rt.name|] == rt.name && rt.name[0] != '#' &&
      IsSpace(line[|rt.name|]) && rt.codes == RemoveSpaces(line[|rt.name|..])
  {
    var line := Strip(raw);
    StripSpec(raw);
    if line != [] && line[0] != '#' {
      SplitStripped(line);
      var fields := SplitOnce(line);
      if |fields| == 2 {
        var w := fields[0];
        RemoveSpacesSpec(fields[1]);
        assert |w| < |line|;
        assert w[0] == line[0];
        SplitCodes(line);
      }
    }
  }

  /** The second field, once its whitespace is removed, is the rest of the line after the first word. */
  lemma SplitCodes(line: string)
    requires line != [] && !IsSpace(line[0]) && !IsSpace(line[|line| - 1]) && !NoSpace(line)
    ensures var w := Word(line);
      |SplitOnce(line)| == 2 && |w| < |line| && IsSpace(line[|w|]) && RemoveSpaces(SplitOnce(line)[1]) == RemoveSpaces(line[|w|..])
  {
    SplitSpaced(line);
    WordSpec(line);
    var i :| 0 <= i < |line| && IsSpace(line[i]);
    WordStops(line, i);
    assert TrimStart(line) == line;
    RemoveSpacesTrimStart(line[|Word(line)|..]);
  }

  /** `'t' in args or 'T' in args`: whether a routine is instantiated for data types too. */
  predicate UsesData(codes: string)
  {
    't' in codes || 'T' in codes
  }

  function TypesFor(codes: string, iTypes: seq<TypeMatrix.Variant>, itTypes: seq<TypeMatrix.Variant>): seq<TypeMatrix.Variant>
  {
    if UsesData(codes) then itTypes else iTypes
  }

  // ---------------------------------------------------------------------
  // The loop over the lines of one unit.

  /** What the loop has produced so far: all names (of every unit) and this unit's code. */
  datatype Emitted = Emitted(names: seq<string>, thunks: seq<string>, methods: seq<string>)

  /** What parse_routine makes of a routine line, for the chosen variant list. */
  type RoutineGen = Routine -> Result<Thunk.RoutineCode>

  /** parse_routine(name, args, it_types or i_types), the list chosen by TypesFor. */
  function Generator(iTypes: seq<TypeMatrix.Variant>, itTypes: seq<TypeMatrix.Variant>): RoutineGen
  {
    (rt: Routine) => Thunk.GenerateRoutine(rt.name, rt.codes, TypesFor(rt.codes, iTypes, itTypes))
  }

  /** What each line yields, line by line. */
  function ParseAll(lines: seq<string>): (r: seq<Result<Option<Routine>>>)
    ensures |r| == |lines| && forall k :: 0 <= k < |lines| ==> r[k] == ParseLine(lines[k])
  {
    seq(|lines|, k requires 0 <= k < |lines| => ParseLine(lines[k]))
  }

  /** gen agrees with parse_routine on rt, for the variant list TypesFor chooses. */
  ghost predicate AgreesOn(gen: RoutineGen, iTypes: seq<TypeMatrix.Variant>, itTypes: seq<TypeMatrix.Variant>, rt: Routine)
  {
    gen(rt) == Thunk.GenerateRoutine(rt.name, rt.codes, TypesFor(rt.codes, iTypes, itTypes))
  }

  /** gen is parse_routine over the variant list TypesFor chooses. */
  ghost predicate Implements(gen: RoutineGen, iTypes: seq<TypeMatrix.Variant>, itTypes: seq<TypeMatrix.Variant>)
  {
    forall rt: Routine :: AgreesOn(gen, iTypes, itTypes, rt)
  }

  lemma GeneratorImplements(iTypes: seq<TypeMatrix.Variant>, itTypes: seq<TypeMatrix.Variant>)
    ensures Implements(Generator(iTypes, itTypes), iTypes, itTypes)
  {
  }

  /**
   * The effect of one parsed line: skip it, fail, or append its name, thunk
   * and method.  The routine is generated before its name is checked.
   */
  function Step(gen: RoutineGen, parsed: Result<Option<Routine>>, acc: Emitted): Result<Emitted>
  {
    match parsed
    case Err(e) => Err(e)
    case Ok(None) => Ok(acc)
    case Ok(Some(rt)) =>
      match gen(rt)
      case Err(e) => Err(e)
      case Ok(code) =>
        if rt.name in acc.names then Err(DuplicateRoutine(rt.name))
        else Ok(Emitted(acc.names + [rt.name], acc.thunks + [code.thunkCode], acc.methods + [code.methodCode]))
  }

  /** The parsed lines processed in order from `acc`; the first error ends the run. */
  function RunLines(gen: RoutineGen, lines: seq<Result<Option<Routine>>>, acc: Emitted): Result<Emitted>
  {
    if lines == [] then Ok(acc)
    else
      match RunLines(gen, lines[..|lines| - 1], acc)
      case Err(e) => Err(e)
      case Ok(a) => Step(gen, lines[|lines| - 1], a)
  }

  /**
   * The body of `main`'s line loop: strip and split the line, generate the
   * routine from the variant list its codes call for, then reject a name
   * already seen and record the new one.
   */
  method ProcessLine(line: string, iTypes: seq<TypeMatrix.Variant>, itTypes: seq<TypeMatrix.Variant>, ghost gen: RoutineGen, acc: Emitted)
    returns (r: Result<Emitted>)
    requires Implements(gen, iTypes, itTypes)
    ensures r == Step(gen, ParseLine(line), acc)
  {
    var parsed := ParseLine(line);
    if parsed.Err? {
      return Err(parsed.error);
    }
    if parsed.value.None? {
      return Ok(acc);
    }
    var rt := parsed.value.value;
    var types := if 't' in rt.codes || 'T' in rt.codes then itTypes else iTypes;
    var code := Thunk.ParseRoutine(rt.name, rt.codes, types);
    assert AgreesOn(gen, iTypes, itTypes, rt);
    if code.Err? {
      return Err(code.error);
    }
    if rt.name in acc.names {
      return Err(DuplicateRoutine(rt.name));
    }
    r := Ok(Emitted(acc.names + [rt.name], acc.thunks + [code.value.thunkCode], acc.methods + [code.value.methodCode]));
  }

  /**
   * The loop of `main` over one unit's routine table: `names0` holds the
   * routines of the earlier units; the result holds all routines so far and
   * this unit's thunks and methods in line order.
   */
  method ProcessUnit(routines: string, iTypes: seq<TypeMatrix.Variant>, itTypes: seq<TypeMatrix.Variant>, ghost gen: RoutineGen, names0: seq<string>)
    returns (r: Result<Emitted>)
    requires Implements(gen, iTypes, itTypes)
    ensures r == RunLines(gen, ParseAll(SplitLines(routines)), Emitted(names0, [], []))
  {
    var lines := SplitLines(routines);
    ghost var all := ParseAll(lines);
    ghost var acc0 := Emitted(names0, [], []);
    var acc := Emitted(names0, [], []);
    for k := 0 to |lines|
      invariant RunLines(gen, all[..k], acc0) == Ok(acc)
    {
      var next := ProcessLine(lines[k], iTypes, itTypes, gen, acc);
      RunLinesSnoc(gen, all, k, acc0, acc);
      if next.Err? {
        RunLinesAbort(gen, all, acc0, k + 1);
        return next;
      }
      acc := next.value;
    }
    assert all[..|all|] == all;
    r := Ok(acc);
  }

  /** Extending the processed prefix by one line applies that line's step. */
  lemma RunLinesSnoc(gen: RoutineGen, lines: seq<Result<Option<Routine>>>, k: nat, acc0: Emitted, acc: Emitted)
    requires k < |lines| && RunLines(gen, lines[..k], acc0) == Ok(acc)
    ensures RunLines(gen, lines[..k + 1], acc0) == Step(gen, lines[k], acc)
  {
    assert lines[..k + 1][..k] == lines[..k] && lines[..k + 1][k] == lines[k];
  }

  /** Once a prefix of the lines fails, the whole unit fails with that error. */
  lemma {:induction false} RunLinesAbort(gen: RoutineGen, lines: seq<Result<Option<Routine>>>, acc: Emitted, n: nat)
    requires n <= |lines| && RunLines(gen, lines[..n], acc).Err?
    ensures RunLines(gen, lines, acc) == RunLines(gen, lines[..n], acc)
    decreases |lines| - n
  {
    if n < |lines| {
      assert lines[..n + 1][..n] == lines[..n];
      RunLinesAbort(gen, lines, acc, n + 1);
    } else {
      assert lines[..n] == lines;
    }
  }

  // ---------------------------------------------------------------------
  // Names: order, and the duplicate check.

  /** The names of the routine lines, in order. */
  function RoutineNames(lines: seq<Result<Option<Routine>>>): seq<string>
  {
    if lines == [] then []
    else
      RoutineNames(lines[..|lines| - 1]) +
      match lines[|lines| - 1]
      case Ok(Some(rt)) => [rt.name]
      case _ => []
  }

  /** The routine lines, in order. */
  function Routines(lines: seq<Result<Option<Routine>>>): seq<Routine>
  {
    if lines == [] then []
    else
      Routines(lines[..|lines| - 1]) +
      match lines[|lines| - 1]
      case Ok(Some(rt)) => [rt]
      case _ => []
  }

  /** The names are those of the routine lines, one for one. */
  lemma {:induction false} RoutinesNamed(lines: seq<Result<Option<Routine>>>)
    ensures |Routines(lines)| == |RoutineNames(lines)|
    ensures forall i :: 0 <= i < |Routines(lines)| ==> Routines(lines)[i].name == RoutineNames(lines)[i]
  {
    if lines != [] {
      RoutinesNamed(lines[..|lines| - 1]);
    }
  }

  /** Every line parses, and every routine line's arguments marshal for its types. */
  predicate Generates(gen: RoutineGen, lines: seq<Result<Option<Routine>>>)
  {
    forall k :: 0 <= k < |lines| ==> GeneratesLine(gen, lines[k])
  }

  predicate GeneratesLine(gen: RoutineGen, parsed: Result<Option<Routine>>)
  {
    match parsed
    case Err(_) => false
    case Ok(None) => true
    case Ok(Some(rt)) => gen(rt).Ok?
  }

  /**
   * A successful run appends the routine names in line order, one thunk and
   * one method per routine line, to what was there before.
   */
  lemma {:induction false} RunLinesAppends(gen: RoutineGen, lines: seq<Result<Option<Routine>>>, acc: Emitted)
    requires RunLines(gen, lines, acc).Ok?
    ensures var e := RunLines(gen, lines, acc).value;
      e.names == acc.names + RoutineNames(lines) &&
      |e.thunks| == |acc.thunks| + |RoutineNames(lines)| &&
      |e.methods| == |acc.methods| + |RoutineNames(lines)| &&
      e.thunks[..|acc.thunks|] == acc.thunks && e.methods[..|acc.methods|] == acc.methods
    ensures Generates(gen, lines)
  {
    if lines != [] {
      var init := lines[..|lines| - 1];
      RunLinesAppends(gen, init, acc);
      var a := RunLines(gen, init, acc).value;
      assert (a.names + RoutineNames(init)) == a.names + RoutineNames(init);
      var last := lines[|lines| - 1];
      if last.Ok? && last.value.Some? {
        var rt := last.value.value;
        assert acc.names + RoutineNames(lines) == (acc.names + RoutineNames(init)) + [rt.name];
        assert (a.thunks + [gen(rt).value.thunkCode])[..|acc.thunks|] == a.thunks[..|acc.thunks|];
        assert (a.methods + [gen(rt).value.methodCode])[..|acc.methods|] == a.methods[..|acc.methods|];
      } else {
        assert RoutineNames(lines) == RoutineNames(init) + [];
      }
    } else {
      assert acc.names + [] == acc.names;
      assert acc.thunks[..|acc.thunks|] == acc.thunks && acc.methods[..|acc.methods|] == acc.methods;
    }
  }

  /**
   * A successful run appends, for the i-th routine line, the thunk and the
   * method parse_routine generates for it, after what was there before.
   */
  lemma {:induction false} RunLinesCode(gen: RoutineGen, lines: seq<Result<Option<Routine>>>, acc: Emitted)
    requires RunLines(gen, lines, acc).Ok?
    ensures var e := RunLines(gen, lines, acc).value;
      |e.thunks| == |acc.thunks| + |Routines(lines)| && |e.methods| == |acc.methods| + |Routines(lines)| &&
      forall i :: 0 <= i < |Routines(lines)| ==>
        gen(Routines(lines)[i]).Ok? &&
        e.thunks[|acc.thunks| + i] == gen(Routines(lines)[i]).value.thunkCode &&
        e.methods[|acc.methods| + i] == gen(Routines(lines)[i]).value.methodCode
  {
    if lines != [] {
      var init := lines[..|lines| - 1];
      RunLinesCode(gen, init, acc);
      var a := RunLines(gen, init, acc).value;
      var e := RunLines(gen, lines, acc).value;
      var rs := Routines(init);
      var last := lines[|lines| - 1];
      if last.Ok? && last.value.Some? {
        var rt := last.value.value;
        assert Routines(lines) == rs + [rt];
        assert e.thunks == a.thunks + [gen(rt).value.thunkCode];
        assert e.methods == a.methods + [gen(rt).value.methodCode];
        forall i | 0 <= i < |rs|
          ensures Routines(lines)[i] == rs[i]
          ensures e.thunks[|acc.thunks| + i] == a.thunks[|acc.thunks| + i]
          ensures e.methods[|acc.methods| + i] == a.methods[|acc.methods| + i]
        {
        }
      } else {
        assert Routines(lines) == rs + [];
      }
    }
  }

  /**
   * The duplicate check: when every line parses and marshals, a unit's lines
   * are accepted exactly when no routine name repeats, within the unit or
   * against the names of earlier units.
   */
  lemma {:induction false} DuplicateCheck(gen: RoutineGen, lines: seq<Result<Option<Routine>>>, acc: Emitted)
    requires Generates(gen, lines) && Distinct(acc.names)
    ensures RunLines(gen, lines, acc).Ok? <==> Distinct(acc.names + RoutineNames(lines))
  {
    if lines == [] {
      assert acc.names + [] == acc.names;
    } else {
      var init := lines[..|lines| - 1];
      var last := lines[|lines| - 1];
      assert Generates(gen, init) by {
        forall k | 0 <= k < |init|
          ensures GeneratesLine(gen, init[k])
        {
          assert init[k] == lines[k];
        }
      }
      assert GeneratesLine(gen, last);
      DuplicateCheck(gen, init, acc);
      var before := acc.names + RoutineNames(init);
      match last
      case Ok(None) => {
        assert acc.names + RoutineNames(lines) == before;
        if RunLines(gen, init, acc).Ok? {
          RunLinesAppends(gen, init, acc);
        }
      }
      case Ok(Some(rt)) => {
        assert acc.names + RoutineNames(lines) == before + [rt.name];
        DistinctSnoc(before, rt.name);
        if RunLines(gen, init, acc).Ok? {
          RunLinesAppends(gen, init, acc);
        }
      }
    }
  }

  /** Appending a name keeps the names distinct exactly when it is new. */
  lemma DistinctSnoc(s: seq<string>, x: string)
    ensures Distinct(s + [x]) <==> Distinct(s) && x !in s
  {
    var t := s + [x];
    if Distinct(t) {
      forall p, q | 0 <= p < q < |s|
        ensures s[p] != s[q]
      {
        assert t[p] == s[p] && t[q] == s[q];
      }
      assert forall p :: 0 <= p < |s| ==> t[p] == s[p] && t[p] != t[|s|];
    }
    if Distinct(s) && x !in s {
      forall p, q | 0 <= p < q < |t|
        ensures t[p] != t[q]
      {
        if q == |s| {
          assert t[p] == s[p] && t[q] == x;
        } else {
          assert t[p] == s[p] && t[q] == s[q];
        }
      }
    }
  }

  // ---------------------------------------------------------------------
  // The whole run.

  /** A compilation unit: a name and its routine table. */
  datatype Unit = Unit(name: string, routines: string)

  /**
   * A generated `<unit>_impl.h`, as its file name and the text written after
   * the generated-file banner: the getter code, then the thunks, then the methods.
   */
  datatype UnitFile = UnitFile(fileName: string, text: string)

  function UnitText(getterCode: string, e: Emitted): string
  {
    getterCode + Concat(e.thunks) + Concat(e.methods)
  }

  function FileName(unitName: string): string
  {
    unitName + "_impl.h"
  }

  /** Per-unit files so far and every routine name seen. */
  datatype Progress = Progress(files: seq<UnitFile>, names: seq<string>)

  function RunUnits(gen: RoutineGen, units: seq<Unit>, getterCode: string): Result<Progress>
  {
    if units == [] then Ok(Progress([], []))
    else
      var u := units[|units| - 1];
      match RunUnits(gen, units[..|units| - 1], getterCode)
      case Err(e) => Err(e)
      case Ok(p) =>
        match RunLines(gen, ParseAll(SplitLines(u.routines)), Emitted(p.names, [], []))
        case Err(e) => Err(e)
        case Ok(e) => Ok(Progress(p.files + [UnitFile(FileName(u.name), UnitText(getterCode, e))], e.names))
  }

  /** Everything `main` writes: one file per unit, then sparsetools_impl.h. */
  datatype Output = Output(files: seq<UnitFile>, names: seq<string>, methodDefs: string, methodStruct: string)

  function GenerateAll(it: seq<TypeMatrix.TypeEntry>, tt: seq<TypeMatrix.TypeEntry>, units: seq<Unit>): Result<Output>
  {
    match RunUnits(Generator(TypeMatrix.ITypes(it, tt), TypeMatrix.ItTypes(it, tt)), units, TypeMatrix.GetterText(it, tt))
    case Err(e) => Err(e)
    case Ok(p) => Ok(Output(p.files, p.names, Render(Declarations(p.names)), Render(MethodTable(p.names))))
  }

  /** `main` without the option handling and the file writes. */
  method Generate(it: seq<TypeMatrix.TypeEntry>, tt: seq<TypeMatrix.TypeEntry>, units: seq<Unit>)
    returns (r: Result<Output>)
    ensures r == GenerateAll(it, tt, units)
  {
    var iTypes, itTypes, getterCode := TypeMatrix.GetThunkTypeSet(it, tt);
    ghost var gen := Generator(iTypes, itTypes);
    GeneratorImplements(iTypes, itTypes);
    var names: seq<string> := [];
    var files: seq<UnitFile> := [];
    for u := 0 to |units|
      invariant RunUnits(gen, units[..u], getterCode) == Ok(Progress(files, names))
    {
      assert units[..u + 1][..u] == units[..u] && units[..u + 1][u] == units[u];
      var e := ProcessUnit(units[u].routines, iTypes, itTypes, gen, names);
      if e.Err? {
        RunUnitsAbort(gen, units, getterCode, u + 1);
        return Err(e.error);
      }
      names := e.value.names;
      files := files + [UnitFile(FileName(units[u].name), UnitText(getterCode, e.value))];
    }
    assert units[..|units|] == units;
    var defs := BuildMethodDefs(names);
    var table := BuildMethodStruct(names);
    r := Ok(Output(files, names, defs, table));
  }

  lemma {:induction false} RunUnitsAbort(gen: RoutineGen, units: seq<Unit>, getterCode: string, n: nat)
    requires n <= |units| && RunUnits(gen, units[..n], getterCode).Err?
    ensures RunUnits(gen, units, getterCode) == RunUnits(gen, units[..n], getterCode)
    decreases |units| - n
  {
    if n < |units| {
      assert units[..n + 1][..n] == units[..n];
      RunUnitsAbort(gen, units, getterCode, n + 1);
    } else {
      assert units[..n] == units;
    }
  }

  /** A successful run over units ends with the run of their last unit. */
  lemma RunUnitsLast(gen: RoutineGen, units: seq<Unit>, getterCode: string)
    requires units != [] && RunUnits(gen, units, getterCode).Ok?
    ensures var u := units[|units| - 1];
      var before := RunUnits(gen, units[..|units| - 1], getterCode);
      before.Ok? &&
      var e := RunLines(gen, ParseAll(SplitLines(u.routines)), Emitted(before.value.names, [], []));
      e.Ok? &&
      RunUnits(gen, units, getterCode).value ==
        Progress(before.value.files + [UnitFile(FileName(u.name), UnitText(getterCode, e.value))], e.value.names)
  {
  }

  /** Across all units of a successful run the routine names are distinct. */
  lemma {:induction false} RunUnitsDistinct(gen: RoutineGen, units: seq<Unit>, getterCode: string)
    requires RunUnits(gen, units, getterCode).Ok?
    ensures Distinct(RunUnits(gen, units, getterCode).value.names)
  {
    if units != [] {
      var init := units[..|units| - 1];
      RunUnitsLast(gen, units, getterCode);
      RunUnitsDistinct(gen, init, getterCode);
      var p := RunUnits(gen, init, getterCode).value;
      var lines := ParseAll(SplitLines(units[|units| - 1].routines));
      var acc := Emitted(p.names, [], []);
      RunLinesAppends(gen, lines, acc);
      DuplicateCheck(gen, lines, acc);
    }
  }

  /** The routine names of all units: unit by unit, each in line order. */
  function AllNames(units: seq<Unit>): seq<string>
  {
    if units == [] then []
    else AllNames(units[..|units| - 1]) + RoutineNames(ParseAll(SplitLines(units[|units| - 1].routines)))
  }

  /** A successful run has collected the routine names of all units, in unit and line order. */
  lemma {:induction false} RunUnitsNames(gen: RoutineGen, units: seq<Unit>, getterCode: string)
    requires RunUnits(gen, units, getterCode).Ok?
    ensures RunUnits(gen, units, getterCode).value.names == AllNames(units)
  {
    if units != [] {
      var init := units[..|units| - 1];
      RunUnitsLast(gen, units, getterCode);
      RunUnitsNames(gen, init, getterCode);
      var p := RunUnits(gen, init, getterCode).value;
      RunLinesAppends(gen, ParseAll(SplitLines(units[|units| - 1].routines)), Emitted(p.names, [], []));
    }
  }

  /**
   * When every line of every unit parses and marshals, the run succeeds
   * exactly when no routine name repeats, within a unit or across units.
   */
  lemma {:induction false} RunUnitsAccepts(gen: RoutineGen, units: seq<Unit>, getterCode: string)
    requires UnitsGenerate(gen, units)
    ensures RunUnits(gen, units, getterCode).Ok? <==> Distinct(AllNames(units))
  {
    if units != [] {
      var init := units[..|units| - 1];
      var lines := ParseAll(SplitLines(units[|units| - 1].routines));
      assert forall k :: 0 <= k < |init| ==> init[k] == units[k];
      RunUnitsAccepts(gen, init, getterCode);
      assert AllNames(units) == AllNames(init) + RoutineNames(lines);
      if RunUnits(gen, init, getterCode).Ok? {
        var p := RunUnits(gen, init, getterCode).value;
        RunUnitsNames(gen, init, getterCode);
        DuplicateCheck(gen, lines, Emitted(p.names, [], []));
      } else {
        DistinctPrefix(AllNames(init), RoutineNames(lines));
      }
    }
  }

  /** Every line of every unit parses, and every routine line's arguments marshal. */
  predicate UnitsGenerate(gen: RoutineGen, units: seq<Unit>)
  {
    forall k :: 0 <= k < |units| ==> Generates(gen, ParseAll(SplitLines(units[k].routines)))
  }

  lemma DistinctPrefix(a: seq<string>, b: seq<string>)
    ensures Distinct(a + b) ==> Distinct(a)
  {
    assert forall i :: 0 <= i < |a| ==> (a + b)[i] == a[i];
  }

  /** A successful run produces one file per unit, named after it, in unit order. */
  lemma {:induction false} RunUnitsFiles(gen: RoutineGen, units: seq<Unit>, getterCode: string)
    requires RunUnits(gen, units, getterCode).Ok?
    ensures var fs := RunUnits(gen, units, getterCode).value.files;
      |fs| == |units| && forall k :: 0 <= k < |units| ==> fs[k].fileName == FileName(units[k].name)
  {
    if units != [] {
      var init := units[..|units| - 1];
      RunUnitsLast(gen, units, getterCode);
      RunUnitsFiles(gen, init, getterCode);
      var before := RunUnits(gen, init, getterCode).value.files;
      var fs := RunUnits(gen, units, getterCode).value.files;
      assert fs[..|init|] == before && fs[|init|].fileName == FileName(units[|init|].name);
      forall k | 0 <= k < |init|
        ensures fs[k].fileName == FileName(units[k].name)
      {
        assert fs[k] == before[k] && units[k] == init[k];
      }
    }
  }

  /**
   * A whole successful run: the names are the routine names of the units'
   * lines in unit and line order, all distinct; one `<unit>_impl.h` is
   * produced per unit in unit order; and the declarations and the method
   * table list exactly those routines, in that order.
   */
  lemma GenerateAllNames(it: seq<TypeMatrix.TypeEntry>, tt: seq<TypeMatrix.TypeEntry>, units: seq<Unit>)
    requires GenerateAll(it, tt, units).Ok?
    ensures var o := GenerateAll(it, tt, units).value;
      o.names == AllNames(units) && Distinct(o.names) && |o.files| == |units| &&
      (forall k :: 0 <= k < |units| ==> o.files[k].fileName == FileName(units[k].name)) &&
      o.methodDefs == Render(Declarations(AllNames(units))) &&
      o.methodStruct == Render(MethodTable(AllNames(units)))
  {
    var gen := Generator(TypeMatrix.ITypes(it, tt), TypeMatrix.ItTypes(it, tt));
    RunUnitsNames(gen, units, TypeMatrix.GetterText(it, tt));
    RunUnitsDistinct(gen, units, TypeMatrix.GetterText(it, tt));
    RunUnitsFiles(gen, units, TypeMatrix.GetterText(it, tt));
  }

  /**
   * When every routine line of every unit parses and marshals, `main`
   * succeeds exactly when no routine name repeats: a name already used in
   * an earlier unit, or earlier in the same unit, is rejected.
   */
  lemma GenerateAllAccepts(it: seq<TypeMatrix.TypeEntry>, tt: seq<TypeMatrix.TypeEntry>, units: seq<Unit>)
    requires UnitsGenerate(Generator(TypeMatrix.ITypes(it, tt), TypeMatrix.ItTypes(it, tt)), units)
    ensures GenerateAll(it, tt, units).Ok? <==> Distinct(AllNames(units))
  {
    GenerateAllRuns(it, tt, units);
    RunUnitsAccepts(Generator(TypeMatrix.ITypes(it, tt), TypeMatrix.ItTypes(it, tt)), units, TypeMatrix.GetterText(it, tt));
  }

  lemma GenerateAllRuns(it: seq<TypeMatrix.TypeEntry>, tt: seq<TypeMatrix.TypeEntry>, units: seq<Unit>)
    ensures GenerateAll(it, tt, units).Ok? <==>
      RunUnits(Generator(TypeMatrix.ITypes(it, tt), TypeMatrix.ItTypes(it, tt)), units, TypeMatrix.GetterText(it, tt)).Ok?
  {
  }

  // ---------------------------------------------------------------------
  // sparsetools_impl.h: forward declarations and the method table.

  datatype TablePiece = Declaration(name: string) | TableOpen | Entry(name: string) | TableClose

  /** The text of each piece of sparsetools_impl.h. */
  function TableText(p: TablePiece): string
  {
    match p
    case Declaration(n) => "PyObject *" + n + "_method(PyObject *, PyObject *);\n"
    case TableOpen => "\nstatic struct PyMethodDef sparsetools_methods[] = {"
    case Entry(n) => "\n            {\"" + n + "\", (PyCFunction)" + n + "_method, METH_VARARGS, NULL},"
    case TableClose => "\n        {NULL, NULL, 0, NULL}\n    };"
  }

  /** The text of a run of pieces, one after the other. */
  function Render(ps: seq<TablePiece>): string
  {
    ConcatMap(TableText, ps)
  }

  /** One forward declaration per name. */
  function Declarations(names: seq<string>): seq<TablePiece>
  {
    if names == [] then [] else Declarations(names[..|names| - 1]) + [Declaration(names[|names| - 1])]
  }

  /** One method-table entry per name. */
  function Entries(names: seq<string>): seq<TablePiece>
  {
    if names == [] then [] else Entries(names[..|names| - 1]) + [Entry(names[|names| - 1])]
  }

  /** The method table: the array header, one entry per name, the sentinel entry. */
  function MethodTable(names: seq<string>): seq<TablePiece>
  {
    [TableOpen] + Entries(names) + [TableClose]
  }

  /** The `method_defs +=` loop of `main`. */
  method BuildMethodDefs(names: seq<string>) returns (defs: string)
    ensures defs == Render(Declarations(names))
  {
    var pieces: seq<TablePiece> := [];
    for i := 0 to |names|
      invariant pieces == Declarations(names[..i])
    {
      assert names[..i + 1][..i] == names[..i];
      pieces := pieces + [Declaration(names[i])];
    }
    assert names[..|names|] == names;
    defs := Render(pieces);
  }

  /** The `method_struct +=` loop of `main`. */
  method BuildMethodStruct(names: seq<string>) returns (table: string)
    ensures table == Render(MethodTable(names))
  {
    var pieces: seq<TablePiece> := [TableOpen];
    for i := 0 to |names|
      invariant pieces == [TableOpen] + Entries(names[..i])
    {
      assert names[..i + 1][..i] == names[..i];
      pieces := pieces + [Entry(names[i])];
    }
    assert names[..|names|] == names;
    table := Render(pieces + [TableClose]);
  }

  /** One declaration per name, in the order of the names. */
  lemma {:induction false} DeclarationsInOrder(names: seq<string>)
    ensures |Declarations(names)| == |names|
    ensures forall i :: 0 <= i < |names| ==> Declarations(names)[i] == Declaration(names[i])
  {
    if names != [] {
      DeclarationsInOrder(names[..|names| - 1]);
    }
  }

  /**
   * The table opens with the array header, holds one entry per name in the
   * order of the names, and ends with the `{NULL, NULL, 0, NULL}` sentinel.
   */
  lemma TableInOrder(names: seq<string>)
    ensures var t := MethodTable(names);
      |t| == |names| + 2 && t[0] == TableOpen && t[|t| - 1] == TableClose &&
      forall i :: 0 <= i < |names| ==> t[i + 1] == Entry(names[i])
  {
    var es := Entries(names);
    EntriesInOrder(names);
    var t := MethodTable(names);
    assert t == [TableOpen] + (es + [TableClose]);
    forall i | 0 <= i < |names|
      ensures t[i + 1] == Entry(names[i])
    {
      assert t[i + 1] == es[i];
    }
  }

  lemma {:induction false} EntriesInOrder(names: seq<string>)
    ensures |Entries(names)| == |names|
    ensures forall i :: 0 <= i < |names| ==> Entries(names)[i] == Entry(names[i])
  {
    if names != [] {
      EntriesInOrder(names[..|names| - 1]);
    }
  }

  /** The declarations of names run one after the other, in order: names[k]'s text follows those before it. */
  lemma DeclarationsSplit(a: seq<string>, b: seq<string>)
    ensures Declarations(a + b) == Declarations(a) + Declarations(b)
  {
    DeclarationsInOrder(a + b);
    DeclarationsInOrder(a);
    DeclarationsInOrder(b);
  }
}
