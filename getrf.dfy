/**
 The C-callable shim dgetrf(M, N, A, LDA, IPIV, INFO): it checks its scalar
 arguments in a fixed order, reports the first illegal one as INFO = -i, and
 otherwise views A as an M x N matrix and IPIV as a length-M vector and lets
 INFO take the value the FLENS kernel trf returns. The kernel is not
 modelled: its return value is a parameter of the shim.
 */
module Getrf {
  import opened Lapack

  /** The views dgetrf hands to trf. */
  datatype TrfCall = TrfCall(a: GeMatrixView, ipiv: DenseVectorView)

  /** Legality of dgetrf's arguments in call order: M, N, A, LDA.
      The bound on LDA is in terms of M, the row count. */
  function Legality(m: Integer, n: Integer, lda: Integer): (legal: seq<bool>)
    ensures |legal| == 4 && legal[2]
    ensures false !in legal <==> 0 <= m && 0 <= n && lda >= Max(1, m)
  {
    [0 <= m, 0 <= n, true, lda >= Max(1, m)]
  }

  /** The LAPACK convention applied to dgetrf's arguments picks the same
      argument as the shim's chain of checks, M before N before LDA; A,
      argument 3, is never the one. */
  lemma {:induction false} FirstIllegalArgument(m: Integer, n: Integer, lda: Integer)
    ensures FirstInvalid(Legality(m, n, lda)) ==
      if m < 0 then 1
      else if n < 0 then 2
      else if lda < Max(1, m) then 4
      else 0
  {
    var legal := Legality(m, n, lda);
    assert legal[0] == (0 <= m);
    assert legal[1] == (0 <= n);
    assert legal[2];
    assert legal[3] == (lda >= Max(1, m));
  }

  /** What dgetrf's checks decide, by the LAPACK convention: reject with minus
      the position of the first illegal argument, or forward the M x N view of A
      and the length-M, stride-1 view of IPIV. */
  function Outcome(m: Integer, n: Integer, lda: Integer): (r: Outcome<TrfCall>)
    ensures r.Rejected? ==> r.info in {-1, -2, -4}
    ensures r.Forward? ==> r.call.a.Valid() && r.call.ipiv.length == r.call.a.rows
  {
    FirstIllegalArgument(m, n, lda);
    var k: int := FirstInvalid(Legality(m, n, lda));
    if k != 0 then Rejected(-k)
    else Forward(TrfCall(GeMatrixView(m, n, lda), DenseVectorView(m, 1)))
  }

  /**
   dgetrf, statement by statement: INFO is set to 0 and overwritten by the
   first failing check with the negative code; on error it is negated, handed
   to the reporter, negated back and the shim returns before any view is
   built. Otherwise the views are built and INFO becomes trf's return value,
   here the parameter trfInfo.
   */
  method Dgetrf(m: Integer, n: Integer, lda: Integer, trfInfo: Integer)
    returns (info: Integer, report: Option<ErrorReport>, call: Option<TrfCall>)
    ensures Outcome(m, n, lda).Rejected? ==>
      && info == Outcome(m, n, lda).info
      && report == Some(ErrorReport("DGETRF", -info))
      && call == None
    ensures Outcome(m, n, lda).Forward? ==>
      && info == trfInfo
      && report == None
      && call == Some(Outcome(m, n, lda).call)
  {
    FirstIllegalArgument(m, n, lda);
    report, call := None, None;
    info := 0;
    if m < 0 {
      info := -1;
    } else if n < 0 {
      info := -2;
    } else if lda < Max(1, m) {
      info := -4;
    }
    if info != 0 {
      info := -info;
      report := Some(ErrorReport("DGETRF", info));
      info := -info;
      return;
    }

    var a := GeMatrixView(m, n, lda);
    var ipiv := DenseVectorView(m, 1);
    call := Some(TrfCall(a, ipiv));
    info := trfInfo;
  }

  /** The shim forwards exactly when every argument is legal. */
  lemma ForwardIffLegal(m: Integer, n: Integer, lda: Integer)
    ensures Outcome(m, n, lda).Forward? <==> 0 <= m && 0 <= n && lda >= Max(1, m)
  {
    FirstIllegalArgument(m, n, lda);
  }

  /** On the forward path A is viewed as M x N with leading dimension LDA and
      IPIV with length M and stride 1. */
  lemma ForwardViews(m: Integer, n: Integer, lda: Integer)
    requires Outcome(m, n, lda).Forward?
    ensures Outcome(m, n, lda).call == TrfCall(GeMatrixView(m, n, lda), DenseVectorView(m, 1))
  {
    FirstIllegalArgument(m, n, lda);
  }

  /** A negative M gives INFO = -1, whatever N and LDA are. */
  lemma NegativeRows(m: Integer, n: Integer, lda: Integer)
    requires m < 0
    ensures Outcome(m, n, lda) == Rejected(-1)
  {
    var legal := Legality(m, n, lda);
    assert legal == [false] + legal[1..];
    FirstFailureWins([false], legal[1..]);
  }

  /** A legal M with a negative N gives INFO = -2, whatever LDA is. */
  lemma NegativeColumns(m: Integer, n: Integer, lda: Integer)
    requires 0 <= m && n < 0
    ensures Outcome(m, n, lda) == Rejected(-2)
  {
    var legal := Legality(m, n, lda);
    assert legal == [true, false] + legal[2..];
    assert FirstInvalid([true, false]) == 2 by {
      assert [true, false][1..] == [false];
    }
    FirstFailureWins([true, false], legal[2..]);
  }

  /** Legal M and N with an LDA below max(1, M) gives INFO = -4. */
  lemma LeadingDimensionTooSmall(m: Integer, n: Integer, lda: Integer)
    requires 0 <= m && 0 <= n && lda < Max(1, m)
    ensures Outcome(m, n, lda) == Rejected(-4)
  {
    FirstIllegalArgument(m, n, lda);
  }

  /** The LDA bound follows M, not N: a wide matrix with LDA = max(1, M) is
      accepted, and LDA = 0 is refused even for an empty matrix. */
  lemma BoundaryCases()
    ensures Outcome(2, 5, 2).Forward?
    ensures Outcome(0, 0, 0) == Rejected(-4)
    ensures Outcome(0, 3, 1).Forward?
  {
    FirstIllegalArgument(2, 5, 2);
    FirstIllegalArgument(0, 0, 0);
    FirstIllegalArgument(0, 3, 1);
  }
}
