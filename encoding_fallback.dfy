/**
 * Reading the downloaded CSV (main.py lines 92-98): `pd.read_csv` is tried
 * with cp932, then utf-8, then utf-16, each only if the previous one raised.
 * If utf-16 raises too, that exception leaves `main`'s body and reaches the
 * handler on line 137.  Each attempt is an oracle: `read(e)` is what reading
 * the file with encoding `e` gives.
 */
module EncodingFallback {
  import opened Wrappers
  import opened Frames

  datatype Encoding = Cp932 | Utf8 | Utf16

  /** The fixed order of lines 93, 96 and 98. */
  const FallbackOrder: seq<Encoding> := [Cp932, Utf8, Utf16]

  /** The exception `read_csv` raised. */
  datatype ReadError = ReadError(reason: string)

  /** The encodings tried, in order, and what the last of them gave. */
  datatype Resolution = Resolution(tried: seq<Encoding>, outcome: Result<Frame, ReadError>)

  /**
   * Tries the encodings of `order` in turn and stops at the first success.
   * What was tried is a prefix of `order`; all but the last attempt failed;
   * the outcome is the last attempt's; a failure means every encoding was tried.
   */
  function ReadWithFallback(order: seq<Encoding>, read: Encoding -> Result<Frame, ReadError>): (r: Resolution)
    requires order != []
    ensures 1 <= |r.tried| <= |order| && r.tried == order[..|r.tried|]
    ensures forall k :: 0 <= k < |r.tried| - 1 ==> read(r.tried[k]).Failure?
    ensures r.outcome == read(r.tried[|r.tried| - 1])
    ensures r.outcome.Failure? ==> r.tried == order
  {
    if |order| == 1 || read(order[0]).Success? then Resolution([order[0]], read(order[0]))
    else
      var rest := ReadWithFallback(order[1..], read);
      Resolution([order[0]] + rest.tried, rest.outcome)
  }

  /** Lines 92-98 exactly as nested try/except blocks. */
  function NestedTry(read: Encoding -> Result<Frame, ReadError>): (r: Result<Frame, ReadError>)
    ensures read(Cp932).Success? ==> r == read(Cp932)
    ensures read(Cp932).Failure? && read(Utf8).Success? ==> r == read(Utf8)
    ensures r.Failure? <==> read(Cp932).Failure? && read(Utf8).Failure? && read(Utf16).Failure?
    ensures r.Failure? ==> r == read(Utf16)
  {
    match read(Cp932)
    case Success(df) => Success(df)
    case Failure(_) =>
      match read(Utf8)
      case Success(df) => Success(df)
      case Failure(_) => read(Utf16)
  }

  /** The list-driven chain over `FallbackOrder` is the nested try/except of the source. */
  lemma FallbackIsNestedTry(read: Encoding -> Result<Frame, ReadError>)
    ensures ReadWithFallback(FallbackOrder, read).outcome == NestedTry(read)
  {
  }

  /**
   * When `order[k]` is the first encoding that reads the file, it is the one
   * used, and no later encoding is tried.
   */
  lemma FirstSuccessWins(order: seq<Encoding>, read: Encoding -> Result<Frame, ReadError>, k: nat)
    requires k < |order| && read(order[k]).Success?
    requires forall j :: 0 <= j < k ==> read(order[j]).Failure?
    ensures ReadWithFallback(order, read).tried == order[..k + 1]
    ensures ReadWithFallback(order, read).outcome == read(order[k])
  {
  }

  /** If every encoding fails, all are tried and the error is the last one's (utf-16's, for the source's order). */
  lemma AllFail(read: Encoding -> Result<Frame, ReadError>)
    requires read(Cp932).Failure? && read(Utf8).Failure? && read(Utf16).Failure?
    ensures ReadWithFallback(FallbackOrder, read) == Resolution(FallbackOrder, read(Utf16))
  {
  }
}
