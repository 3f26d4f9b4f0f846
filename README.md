# sparsetools wrapper generator, modelled in Dafny

`scipy/sparse/_generate_sparsetools.py` runs at build time. It turns compact
routine-signature lines (`bsr_diagonal        v iiiiiIIT*T`) into the C++ glue that
`sparsetools` compiles:

- one `<unit>_impl.h` per compilation unit, holding the `get_thunk_case` lookup, one
  thunk per routine and one Python method per routine;
- `sparsetools_impl.h`, holding the forward declarations and the
  `PyMethodDef` table.

This project models the generator's core in four modules, one file each.

- `common.dfy` (`Common`): the error conditions (`GenError`), the `Option`/`Result`
  wrappers, Python's `str(int)` and `", ".join`.
- `type_matrix.dfy` (`TypeMatrix`): `get_thunk_type_set`. It numbers every index-only
  variant and every (index type, data type) pair with one running counter, and builds
  the text of `get_thunk_case`. `I_TYPES` and `T_TYPES` are parameters; the shipped
  tables are the constants `TypeMatrix.I_TYPES`/`T_TYPES`. A typenum is the name of a
  C macro. Its integer value, which the generated code compares at run time, is given
  by an environment `env: map<string, int>`. `EvalGetter` gives the generated if/else
  chain its meaning under that environment.
- `arglist.dfy` (`ArgList`): `get_arglist`. The argument expressions are a small
  datatype `Arg`, rendered by `Render` into the f-strings of the source. `Marshal` is
  the specification of the marshalling loop, and `GetArglist` is the loop itself.
- `thunk.dfy` (`Thunk`): `parse_routine`. The thunk text is a list of pieces (case
  label, void or value call, `default`), and the method text is METHOD_TEMPLATE filled
  in. `Dispatch` gives the generated `switch` its meaning.
- `driver.dfy` (`Driver`): the non-I/O part of `main`:
  - Python's `str.strip`, `str.splitlines`, `str.split(None, 1)` and
    `"".join(s.split())`, over Python's whitespace and line-boundary characters;
  - the per-line loop, with its malformed-line and duplicate-name errors;
  - the loop over units;
  - the serialisation of the names into `method_defs` and `method_struct`.

Each loop of the source is a method with loop invariants. Each method is proved equal
to a specification function (`ITypes`/`ItTypes`/`GetterText`, `Marshal`,
`GenerateRoutine`, `RunLines`, `RunUnits`, `Declarations`/`MethodTable`). The
properties are proved as lemmas about those functions.

The generator's own errors are values of `Common.GenError`:

- `InvalidSpecChar`: an unknown code.
- `NotOutputArg`: `V`/`W` without `*`.
- `NoDataType`: a `T` marshalled for an index-only variant. In Python this is the
  `TypeError` from `'const ' + None`.
- `MalformedLine`: a line with a single field.
- `DuplicateRoutine`: a routine name seen before.

Two behaviours of `get_arglist` worth knowing:

- A trailing `*` (and a doubled one) is not rejected: the flag it sets is dropped
  silently (`ArgList.TrailingStarDropped`, `ArgList.DoubledStarCollapses`).
- `bsr_diagonal`'s `iiiiiIIT*T` yields 9 argument expressions, `a[0]`..`a[8]`
  (`ArgList.OutputLast`, with `RankPlain`).

## Model

All source cells are lines of `scipy/sparse/_generate_sparsetools.py`.

| member | source | states |
|---|---|---|
| TypeMatrix.GetThunkTypeSet | scipy/sparse/_generate_sparsetools.py:209-254 | the two loops return exactly `ITypes`/`ItTypes` (the index-only variants and the index×data pairs, numbered by the running counter) and the getter text `GetterText` (GET_THUNK_CASE_TEMPLATE around the branches appended in loop order) |
| TypeMatrix.DataVariants | scipy/sparse/_generate_sparsetools.py:243-249 | the inner loop for index type k yields row k of it_types and its `else if (T_typenum == …)` pieces, and leaves the counter at the first id of index type k+1 |
| TypeMatrix.BlockStep | scipy/sparse/_generate_sparsetools.py:234-252 | one outer pass appends the index-only variant with id Base(k), the row of pairs for index type k and the branch for index type k, which keeps the outer loop's invariant |
| TypeMatrix.Shape | scipy/sparse/_generate_sparsetools.py:234-249 | \|i_types\| = \|I_TYPES\|, \|it_types\| = \|I_TYPES\|·\|T_TYPES\|; every i_types entry has None for both data-type fields and follows I_TYPES' order |
| TypeMatrix.IndexOnlyId | scipy/sparse/_generate_sparsetools.py:238-241 | index type k gets id k·(\|T\|+1) |
| TypeMatrix.CombinedAt | scipy/sparse/_generate_sparsetools.py:243-249 | it_types[k·\|T\|+t] is the pair (index type k, data type t) with id k·(\|T\|+1)+1+t, in declaration order |
| TypeMatrix.IdsExactlyOnce | scipy/sparse/_generate_sparsetools.py:230-249 | across i_types ++ it_types there are \|I\|·(\|T\|+1) variants, their ids are pairwise distinct, lie below that bound and cover every id in it |
| TypeMatrix.ShippedTables | scipy/sparse/_generate_sparsetools.py:131-157 | with the shipped tables: 36 ids, i_types ids 0 and 18, 34 pairs |
| TypeMatrix.PieceText | scipy/sparse/_generate_sparsetools.py:235-252 | definition: the text of each piece of the getter body: the `if (I_typenum == …)` head with its `T_typenum == -1` return, each `else if (T_typenum == …) { return id; }` branch, and the closing braces |
| TypeMatrix.GetThunkCaseTemplate | scipy/sparse/_generate_sparsetools.py:178-184 | definition: GET_THUNK_CASE_TEMPLATE around the generated body, ending in `return -1;` |
| TypeMatrix.EvalGetter | scipy/sparse/_generate_sparsetools.py:178-184 | definition: what the generated `get_thunk_case` returns for a pair of typenum values, under the macro values `env`; the lemmas below prove its behaviour |
| TypeMatrix.EvalCasesFinds | scipy/sparse/_generate_sparsetools.py:243-246 | the data-type branches return the id of the first branch whose typenum equals T_typenum |
| TypeMatrix.EvalCasesMiss | scipy/sparse/_generate_sparsetools.py:243-252 | when no data-type branch matches, control falls out of the index branch to `return -1` |
| TypeMatrix.EvalGetterFinds | scipy/sparse/_generate_sparsetools.py:234-252 | the first index branch whose typenum matches decides: its own id for T_typenum == -1, otherwise the result of its data-type branches |
| TypeMatrix.EvalGetterMiss | scipy/sparse/_generate_sparsetools.py:178-184 | when no index branch matches, get_thunk_case returns -1 |
| TypeMatrix.LookupIndexOnly | scipy/sparse/_generate_sparsetools.py:232-254 | with pairwise distinct typenums, get_thunk_case(I_typenum of i_types[k], -1) returns i_types[k]'s id |
| TypeMatrix.LookupCombined | scipy/sparse/_generate_sparsetools.py:232-254 | with pairwise distinct typenums, get_thunk_case on the typenums of it_types[p] returns it_types[p]'s id |
| TypeMatrix.LookupMiss | scipy/sparse/_generate_sparsetools.py:178-184 | get_thunk_case returns -1 when no index typenum matches, or when T_typenum is not -1 and no data typenum matches |
| ArgList.Cast | scipy/sparse/_generate_sparsetools.py:288-307 | a single code yields an expression exactly when it is acceptable (`i I B l` always, `T` with a data type, `V`/`W` only when writable); otherwise the error for that code; the expression reads the given slot |
| ArgList.Render | scipy/sparse/_generate_sparsetools.py:289-305 | definition: the C++ text of each argument expression (`*(const npy_int32*)a[k]`, `(npy_bool_wrapper*)a[k]`, `(std::vector<…>*)a[k]` and so on), const-qualified as marked |
| ArgList.GetArglist | scipy/sparse/_generate_sparsetools.py:275-309 | the loop with the writable flag and slot counter returns the `", "`-join of `Marshal`'s expressions, or its first error |
| ArgList.MarshalShape | scipy/sparse/_generate_sparsetools.py:280-308 | on success there is one expression per non-`*` code, and expression p reads slot p: slots are consecutive and `*` takes none |
| ArgList.MarshalAt | scipy/sparse/_generate_sparsetools.py:282-308 | the code at position i yields expression number Rank(s[..i]), namely its cast with const-ness decided by the character right before it |
| ArgList.MarshalSucceeds | scipy/sparse/_generate_sparsetools.py:282-308 | if every non-`*` code is acceptable where it stands, marshalling succeeds |
| ArgList.MarshalFails | scipy/sparse/_generate_sparsetools.py:296-307 | the first unacceptable code makes marshalling fail with that code's error (`Invalid spec character`, `must be an output arg`) |
| ArgList.Qualifiers | scipy/sparse/_generate_sparsetools.py:283-305 | `i I T l` are const exactly when the preceding character is not `*`; `B` is never const; `l` is always npy_int64; `V`/`W` are vectors of the index/data type and only follow `*` |
| ArgList.TrailingStarDropped | scipy/sparse/_generate_sparsetools.py:283-287 | a trailing `*` changes nothing: no error, no expression |
| ArgList.DoubledStarCollapses | scipy/sparse/_generate_sparsetools.py:283-287 | `**` acts as a single `*` |
| ArgList.MarshalAppend | scipy/sparse/_generate_sparsetools.py:280-308 | marshalling distributes over concatenation; the codes after a prefix not ending in `*` start unmarked at the next slot |
| ArgList.OutputLast | scipy/sparse/_generate_sparsetools.py:35-35 | a routine ending in `*T` (like bsr_diagonal's `iiiiiIIT*T`) gets the leading codes' expressions plus one writable data pointer; with 8 leading codes that is 9 expressions |
| Thunk.ParseRoutine | scipy/sparse/_generate_sparsetools.py:257-344 | the `thunk_content +=` loop over the variants returns `GenerateRoutine`: the thunk and method text, or the first get_arglist error |
| Thunk.PieceText | scipy/sparse/_generate_sparsetools.py:313-334 | definition: the thunk head from THUNK_TEMPLATE and the text of each switch piece: `case id:`, the void call followed by `return 0;`, the value-returning call, and the throwing `default` |
| Thunk.MethodTemplate | scipy/sparse/_generate_sparsetools.py:170-176 | definition: METHOD_TEMPLATE filled in with the routine name, the return code and the argument codes |
| Thunk.Cases | scipy/sparse/_generate_sparsetools.py:315-316 | definition: one case per variant, carrying the variant's id and get_arglist's text for its types; the first get_arglist error aborts |
| Thunk.CasesOk | scipy/sparse/_generate_sparsetools.py:315-316 | the routine is generated exactly when every variant's argument list marshals |
| Thunk.CasesValues | scipy/sparse/_generate_sparsetools.py:315-329 | on success there is one case per variant, in list order, with the variant's id and its argument list |
| Thunk.CasesFirstError | scipy/sparse/_generate_sparsetools.py:315-316 | the first variant that fails to marshal decides the error |
| Thunk.SwitchLayout | scipy/sparse/_generate_sparsetools.py:313-329 | the switch opens with its head, then holds for case k its label and the call: `(void)name(…); return 0;` for return code `v`, `return name(…);` otherwise |
| Thunk.RoutineLayout | scipy/sparse/_generate_sparsetools.py:313-337 | a generated thunk holds one `case j:` per variant in list order, labelled with its id and calling the routine with the argument list marshalled for its types, followed by the throwing `default` |
| Thunk.MethodCarriesCodes | scipy/sparse/_generate_sparsetools.py:340-342 | the method text carries args[0] and args[1:] verbatim: both can be read back at fixed offsets after the routine name |
| Thunk.TemplateCodes | scipy/sparse/_generate_sparsetools.py:170-176 | METHOD_TEMPLATE filled in has the return code at offset 77+\|name\| and the argument codes between `', "` and the closing `"` |
| Thunk.Dispatch | scipy/sparse/_generate_sparsetools.py:313-334 | the switch runs a case labelled j when there is one, and reaches `default` exactly when no label equals j |
| Thunk.DispatchSelects | scipy/sparse/_generate_sparsetools.py:318-329 | with distinct labels, switching on case k's label runs case k |
| Thunk.UnknownReachesDefault | scipy/sparse/_generate_sparsetools.py:331-334 | get_thunk_case's -1 always reaches the throwing `default` |
| Thunk.VariantIdsDistinct | scipy/sparse/_generate_sparsetools.py:234-249 | ids within i_types and within it_types are pairwise distinct |
| Thunk.CaseIdsDistinct | scipy/sparse/_generate_sparsetools.py:315-329 | cases built from variants with distinct ids have distinct labels |
| Thunk.LabelTextsDistinct | scipy/sparse/_generate_sparsetools.py:318-319 | distinct case ids are written as distinct `case N:` texts (their decimal renderings differ), so the generated switch never repeats a label |
| Thunk.IndexOnlyCall | scipy/sparse/_generate_sparsetools.py:313-329 | for a routine without `t`/`T`, calling the thunk with index type k's typenums runs case k, whose argument list is the one marshalled for that index type |
| Thunk.CombinedCall | scipy/sparse/_generate_sparsetools.py:313-329 | for a routine with `t`/`T`, calling the thunk with the typenums of pair p runs case p, whose argument list is the one marshalled for that pair |
| Thunk.UnknownTypenumsThrow | scipy/sparse/_generate_sparsetools.py:331-334 | typenums get_thunk_case does not know reach the throwing `default` |
| Driver.TrimStartSpec | scipy/sparse/_generate_sparsetools.py:367-367 | lstrip removes exactly the leading whitespace: what it removes is whitespace, and what remains is a suffix that does not begin with whitespace |
| Driver.TrimEndSpec | scipy/sparse/_generate_sparsetools.py:367-367 | rstrip removes exactly the trailing whitespace |
| Driver.Strip | scipy/sparse/_generate_sparsetools.py:367-367 | definition: `line.strip()`, rstrip after lstrip; `StripSpec` states its meaning |
| Driver.StripSpec | scipy/sparse/_generate_sparsetools.py:367-367 | `line.strip()` is a slice of the line with only whitespace outside it, and it neither begins nor ends with whitespace |
| Driver.LinesHaveNoBreaks | scipy/sparse/_generate_sparsetools.py:366-366 | no line produced by `splitlines()` contains a line boundary |
| Driver.SingleLine | scipy/sparse/_generate_sparsetools.py:366-366 | a non-empty text without boundaries is one line, itself |
| Driver.SplitLines | scipy/sparse/_generate_sparsetools.py:366-366 | definition: `routines.splitlines()`, splitting at every Python line boundary with `\r\n` as one boundary and no empty line after a final boundary |
| Driver.WordSpec | scipy/sparse/_generate_sparsetools.py:372-372 | the first field of `split()` is a prefix without whitespace, ending at the first whitespace or at the end |
| Driver.SplitOnce | scipy/sparse/_generate_sparsetools.py:372-372 | definition: `line.split(None, 1)`: no field for a blank text, otherwise the first word and, when anything but whitespace follows it, the rest from its next non-whitespace character |
| Driver.SplitStripped | scipy/sparse/_generate_sparsetools.py:372-372 | on a stripped non-blank line, `split(None, 1)` gives two fields exactly when the line holds whitespace, and its first field is a non-empty prefix without whitespace |
| Driver.RemoveSpacesSpec | scipy/sparse/_generate_sparsetools.py:376-376 | `"".join(args.split())` leaves no whitespace, and a non-whitespace character occurs in it exactly when it occurs in the input |
| Driver.RemoveSpaces | scipy/sparse/_generate_sparsetools.py:376-376 | definition: `"".join(args.split())`, every whitespace character dropped |
| Driver.RemoveSpacesAppend | scipy/sparse/_generate_sparsetools.py:376-376 | removing whitespace from a + b gives that of a followed by that of b: the kept characters keep their order and number |
| Driver.RemoveSpacesKeeps | scipy/sparse/_generate_sparsetools.py:376-376 | a text without whitespace is left unchanged |
| Driver.ParseLineCases | scipy/sparse/_generate_sparsetools.py:367-376 | blank and `#` lines are skipped; a line is malformed exactly when the stripped line is a single field, with the stripped line in the error; otherwise the name is the stripped line's prefix up to its first whitespace, and the codes are the rest of the stripped line with its whitespace removed |
| Driver.ParseLine | scipy/sparse/_generate_sparsetools.py:367-376 | definition: the loop body's parsing of one line: skip blank and `#` lines, a Malformed-line error for one field, else the name and the codes with whitespace removed |
| Driver.ProcessLine | scipy/sparse/_generate_sparsetools.py:367-387 | the loop body does `Step` on the parsed line: skip, error, or generate from it_types when `t`/`T` occurs in the codes (else i_types), then reject a seen name and append name, thunk and method |
| Driver.ProcessUnit | scipy/sparse/_generate_sparsetools.py:362-387 | the line loop of one unit returns `RunLines` over its parsed lines, starting from the names of the earlier units |
| Driver.RunLinesAppends | scipy/sparse/_generate_sparsetools.py:382-387 | a successful unit appends its routine names in line order and one thunk and one method per routine, keeping the earlier names, thunks and methods |
| Driver.RunLinesCode | scipy/sparse/_generate_sparsetools.py:385-387 | the i-th appended thunk and method are those parse_routine generates for the i-th routine line |
| Driver.RoutinesNamed | scipy/sparse/_generate_sparsetools.py:385-385 | the names collected are the names of the routine lines, one for one and in order |
| Driver.DuplicateCheck | scipy/sparse/_generate_sparsetools.py:382-383 | when every line parses and marshals, the unit is accepted exactly when the earlier names plus its routine names are pairwise distinct |
| Driver.Generate | scipy/sparse/_generate_sparsetools.py:356-426 | `main` without I/O returns `GenerateAll`: the per-unit files, all names, `method_defs` and `method_struct`, or the first error |
| Driver.RunUnitsDistinct | scipy/sparse/_generate_sparsetools.py:361-387 | after a successful run, all routine names of all units are distinct |
| Driver.RunUnitsNames | scipy/sparse/_generate_sparsetools.py:356-387 | a successful run has collected the routine names of all units' lines, in unit and line order |
| Driver.RunUnitsAccepts | scipy/sparse/_generate_sparsetools.py:361-387 | when every line of every unit parses and marshals, the run succeeds exactly when the routine names of all units are pairwise distinct: a repeat within a unit or across units is rejected |
| Driver.RunUnitsFiles | scipy/sparse/_generate_sparsetools.py:394-395 | a successful run produces one `<unit>_impl.h` per unit, in unit order |
| Driver.GenerateAllNames | scipy/sparse/_generate_sparsetools.py:356-426 | a successful run's names are the routine names of the units' lines in unit and line order, all distinct; there is one file per unit in unit order; and the declarations and method table are built from those names |
| Driver.GenerateAllAccepts | scipy/sparse/_generate_sparsetools.py:356-387 | when every routine line parses and marshals, `main` succeeds exactly when no routine name repeats within or across units |
| Driver.BuildMethodDefs | scipy/sparse/_generate_sparsetools.py:413-416 | the `method_defs +=` loop yields one forward declaration per name, in order |
| Driver.BuildMethodStruct | scipy/sparse/_generate_sparsetools.py:418-426 | the `method_struct +=` loop yields the array header, one entry per name, and the sentinel |
| Driver.TableText | scipy/sparse/_generate_sparsetools.py:415-426 | definition: the text of a forward declaration, the array header, a `{"name", (PyCFunction)name_method, METH_VARARGS, NULL},` entry and the sentinel |
| Driver.DeclarationsInOrder | scipy/sparse/_generate_sparsetools.py:414-416 | declaration i is the one for names[i] |
| Driver.TableInOrder | scipy/sparse/_generate_sparsetools.py:418-426 | the table opens with the header, holds entry i for names[i], and ends with the `{NULL, NULL, 0, NULL}` sentinel |
| Driver.DeclarationsSplit | scipy/sparse/_generate_sparsetools.py:414-416 | the declarations of a + b are those of a followed by those of b |

## Left out

- `newer` (lines 192-206) is left out: it reads file modification times.
- Option handling (lines 347-354), `print`, the file writes and `write_autogen_blurb` (lines 389-411, 428-449) are left out. A generated file is modelled as its name and the text written after the banner (`UnitFile`).
- The output directory (lines 390-395) is left out. Without `-o`, `outdir` is never bound in the source, and that path is file-system I/O.
- The model does not say which files exist after a failed run. The source writes each unit's file inside the unit loop, so a duplicate found in a later unit is reported after the earlier units were written. The model returns the error for the whole run, and the duplicate check is modelled on the name list only.
- The routine tables (lines 33-126) and `COMPILATION_UNITS` (lines 121-126) are not reproduced. The units are a parameter of `Driver.Generate`. Only `I_TYPES`/`T_TYPES` are given as constants, for `ShippedTables`.
- Variant selection looks only for `t`/`T` (line 377), as in the code. A `W`-only routine gets i_types, and its vector is rendered with data type `None`, as `str(None)` gives.
- The C++ macro values of the typenums are not modelled. They are an environment parameter `env`, and the lookup lemmas assume them pairwise distinct, with no data typenum equal to -1.
- The Python exception chaining of a malformed line (`raise … from e`) is not modelled. Only the error value is, with the stripped line in it.
- `scipy/__init__.py` is not part of this model: it re-exports numpy names and installs import hooks, and has no part in the generator.
- Unicode: whitespace and line boundaries are the fixed character sets Python 3 uses for `str.isspace` and `str.splitlines`. The model has no Unicode database.
