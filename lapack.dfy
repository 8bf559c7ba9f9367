/**
 Shared vocabulary of the C-callable LAPACK shims: the INTEGER type of the
 interface, the typed tags the character arguments are decoded into, the
 matrix and vector views handed to the FLENS kernels, the record of a call
 to the error reporter, and the LAPACK convention for reporting an illegal
 argument (INFO = -i for the first illegal argument i, counted from 1).
 */
module Lapack {

  /** The interface's INTEGER, a 32-bit signed integer. */
  const MinInteger: int := -0x8000_0000
  const MaxInteger: int := 0x7fff_ffff
  type Integer = x: int | MinInteger <= x <= MaxInteger

  datatype Option<T> = None | Some(value: T)

  /** std::max on two INTEGERs. */
  function Max(a: Integer, b: Integer): (m: Integer)
    ensures a <= m && b <= m
    ensures m == a || m == b
  {
    if a < b then b else a
  }

  /** StorageUpLo: which triangle of a triangular matrix is referenced. */
  datatype StorageUpLo = Upper | Lower

  /** Diag: whether the diagonal of a triangular matrix is implicitly one. */
  datatype Diag = Unit | NonUnit

  /** A column-major full-storage view: rows x cols with the given leading dimension. */
  datatype GeMatrixView = GeMatrixView(rows: Integer, cols: Integer, leadingDim: Integer)
  {
    /** What the kernels assume of a view: non-negative extents and a leading
        dimension covering a whole column (and at least one). */
    predicate Valid() {
      0 <= rows && 0 <= cols && leadingDim >= Max(1, rows)
    }
  }

  /** A triangular view over a square full-storage view. */
  datatype TrMatrixView = TrMatrixView(ge: GeMatrixView, upLo: StorageUpLo, diag: Diag)

  /** A dense vector view: length elements, stride apart. */
  datatype DenseVectorView = DenseVectorView(length: Integer, stride: Integer)

  /** A call of the error reporter LAPACK_ERROR(routine, INFO), recording the
      value INFO held when the reporter ran. */
  datatype ErrorReport = ErrorReport(routine: string, info: Integer)

  /** What a shim does with its arguments: reject them with the (negative)
      status it leaves in INFO, or forward a kernel call built from them. */
  datatype Outcome<C> = Rejected(info: Integer) | Forward(call: C)

  /**
   The LAPACK convention for illegal arguments: given the legality of each
   argument in call order, the position (counted from 1) of the first illegal
   one, or 0 when all are legal. A routine reports it as INFO = -k.
   */
  function FirstInvalid(legal: seq<bool>): (k: nat)
    ensures k <= |legal|
    ensures k == 0 <==> (forall i :: 0 <= i < |legal| ==> legal[i])
    ensures 0 < k ==> !legal[k - 1] && (forall i :: 0 <= i < k - 1 ==> legal[i])
  {
    if |legal| == 0 then 0
    else if !legal[0] then 1
    else
      var k := FirstInvalid(legal[1..]);
      if k == 0 then 0 else k + 1
  }

  /** First failure wins: once an argument is illegal, the legality of the
      arguments after it does not change the reported position. */
  lemma {:induction false} FirstFailureWins(legal: seq<bool>, rest: seq<bool>)
    requires FirstInvalid(legal) != 0
    ensures FirstInvalid(legal + rest) == FirstInvalid(legal)
  {
    if !legal[0] {
      assert (legal + rest)[0] == legal[0];
    } else {
      assert (legal + rest)[1..] == legal[1..] + rest;
      FirstFailureWins(legal[1..], rest);
    }
  }
}
