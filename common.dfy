/**
 * Shared vocabulary of the sparsetools wrapper generator: the optional and
 * failure-carrying wrappers, the generator's error conditions, and the two
 * pieces of text formatting the generator leans on (Python's `str(int)` for
 * case ids and slot numbers, and `", ".join(...)`).
 */
module Common {

  datatype Option<+T> = None | Some(value: T)

  /** Every way the generator aborts a run. */
  datatype GenError =
    | InvalidSpecChar(c: char)      // a code outside {*, i, I, T, B, V, W, l}
    | NotOutputArg(c: char)         // 'V' or 'W' not immediately after '*'
    | NoDataType                    // 'T' marshalled for a variant without a data type
    | MalformedLine(line: string)   // a routine line with a single field
    | DuplicateRoutine(name: string)

  datatype Result<+T> = Ok(value: T) | Err(error: GenError)

  /** Prefixes already produced items to the outcome of the rest of a pass. */
  function Prepend<T>(xs: seq<T>, r: Result<seq<T>>): Result<seq<T>>
  {
    match r
    case Ok(rest) => Ok(xs + rest)
    case Err(e) => Err(e)
  }

  lemma PrependNil<T>(r: Result<seq<T>>)
    ensures Prepend([], r) == r
  {
    if r.Ok? {
      assert [] + r.value == r.value;
    }
  }

  lemma PrependAssoc<T>(xs: seq<T>, ys: seq<T>, r: Result<seq<T>>)
    ensures Prepend(xs + ys, r) == Prepend(xs, Prepend(ys, r))
  {
    if r.Ok? {
      assert (xs + ys) + r.value == xs + (ys + r.value);
    }
  }

  function DigitChar(d: nat): (c: char)
    requires d < 10
    ensures '0' <= c <= '9' && c as int - '0' as int == d
  {
    "0123456789"[d]
  }

  /** Decimal rendering of a non-negative integer, as Python's `%s`/f-string gives it. */
  function NatToString(n: nat): (s: string)
    ensures |s| > 0
    ensures forall i :: 0 <= i < |s| ==> '0' <= s[i] <= '9'
    decreases n
  {
    if n < 10 then [DigitChar(n)] else NatToString(n / 10) + [DigitChar(n % 10)]
  }

  /** Value of a string of decimal digits. */
  function DecimalValue(s: string): nat
    requires forall i :: 0 <= i < |s| ==> '0' <= s[i] <= '9'
  {
    if s == [] then 0
    else 10 * DecimalValue(s[..|s| - 1]) + (s[|s| - 1] as int - '0' as int)
  }

  /** The rendering of a case id or slot number reads back as that number. */
  lemma {:induction false} NatToStringValue(n: nat)
    ensures DecimalValue(NatToString(n)) == n
  {
    if n >= 10 {
      var s := NatToString(n);
      assert s[..|s| - 1] == NatToString(n / 10);
      NatToStringValue(n / 10);
    }
  }

  /** Distinct numbers are rendered as distinct texts. */
  lemma NatToStringInjective(m: nat, n: nat)
    requires m != n
    ensures NatToString(m) != NatToString(n)
  {
    NatToStringValue(m);
    NatToStringValue(n);
  }

  /** Python's `sep.join(parts)`. */
  function Join(sep: string, parts: seq<string>): (r: string)
    ensures parts == [] ==> r == ""
    ensures |parts| == 1 ==> r == parts[0]
  {
    if parts == [] then ""
    else if |parts| == 1 then parts[0]
    else parts[0] + sep + Join(sep, parts[1..])
  }

  /** Python's `"".join(parts)`. */
  function Concat(parts: seq<string>): string
  {
    if parts == [] then "" else Concat(parts[..|parts| - 1]) + parts[|parts| - 1]
  }

  /** The texts of the items, one after the other. */
  function ConcatMap<T>(text: T -> string, xs: seq<T>): string
  {
    if xs == [] then "" else ConcatMap(text, xs[..|xs| - 1]) + text(xs[|xs| - 1])
  }

  predicate Distinct<T(==)>(s: seq<T>)
  {
    forall p, q :: 0 <= p < q < |s| ==> s[p] != s[q]
  }
}
