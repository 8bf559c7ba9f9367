/**
 The C-callable shim dtrtri(UPLO, DIAG, N, A, LDA, INFO): it checks its scalar
 arguments in a fixed order, reports the first illegal one as INFO = -i, and
 otherwise views A as an N x N triangular matrix and calls the FLENS kernel
 tri on it. The kernel itself is not modelled: the shim's outcome records the
 view it would be handed.
 */
module Trtri {
  import opened Lapack

  /** Legality of dtrtri's arguments in call order: UPLO, DIAG, N, A, LDA.
      Matching of the characters is exact (case-sensitive); A is not checked. */
  function Legality(uplo: char, diag: char, n: Integer, lda: Integer): (legal: seq<bool>)
    ensures |legal| == 5 && legal[3]
    ensures false !in legal <==>
      (uplo == 'U' || uplo == 'L') && (diag == 'N' || diag == 'U') && 0 <= n && lda >= Max(1, n)
  {
    [uplo == 'U' || uplo == 'L',
     diag == 'N' || diag == 'U',
     0 <= n,
     true,
     lda >= Max(1, n)]
  }

  /** The character that selects a triangle. */
  function UpLoChar(t: StorageUpLo): (c: char)
    ensures c == 'U' || c == 'L'
  {
    if t == Upper then 'U' else 'L'
  }

  /** Decoding of a legal UPLO into its tag: the inverse of UpLoChar. */
  function UpLoOf(uplo: char): (t: StorageUpLo)
    requires uplo == 'U' || uplo == 'L'
    ensures UpLoChar(t) == uplo
  {
    if uplo == 'U' then Upper else Lower
  }

  /** The character that selects a diagonal kind. */
  function DiagChar(t: Diag): (c: char)
    ensures c == 'N' || c == 'U'
  {
    if t == NonUnit then 'N' else 'U'
  }

  /** Decoding of a legal DIAG into its tag: the inverse of DiagChar. */
  function DiagOf(diag: char): (t: Diag)
    requires diag == 'N' || diag == 'U'
    ensures DiagChar(t) == diag
  {
    if diag == 'N' then NonUnit else Unit
  }

  /** Decoding undoes encoding: every tag comes back from its character. */
  lemma TagRoundTrip(upLo: StorageUpLo, diag: Diag)
    ensures UpLoOf(UpLoChar(upLo)) == upLo
    ensures DiagOf(DiagChar(diag)) == diag
  {
  }

  /** The LAPACK convention applied to dtrtri's arguments picks the same
      argument as the shim's chain of checks, UPLO before DIAG before N before
      LDA; A, argument 4, is never the one. */
  lemma {:induction false} FirstIllegalArgument(uplo: char, diag: char, n: Integer, lda: Integer)
    ensures FirstInvalid(Legality(uplo, diag, n, lda)) ==
      if uplo != 'U' && uplo != 'L' then 1
      else if diag != 'N' && diag != 'U' then 2
      else if n < 0 then 3
      else if lda < Max(1, n) then 5
      else 0
  {
    var legal := Legality(uplo, diag, n, lda);
    assert legal[0] == (uplo == 'U' || uplo == 'L');
    assert legal[1] == (diag == 'N' || diag == 'U');
    assert legal[2] == (0 <= n);
    assert legal[3];
    assert legal[4] == (lda >= Max(1, n));
  }

  /** What dtrtri does, by the LAPACK convention: reject with minus the position
      of the first illegal argument, or forward the N x N triangular view. */
  function Outcome(uplo: char, diag: char, n: Integer, lda: Integer): (r: Outcome<TrMatrixView>)
    ensures r.Rejected? ==> r.info in {-1, -2, -3, -5}
    ensures r.Forward? ==> r.call.ge.Valid()
  {
    FirstIllegalArgument(uplo, diag, n, lda);
    var k: int := FirstInvalid(Legality(uplo, diag, n, lda));
    if k != 0 then Rejected(-k)
    else Forward(TrMatrixView(GeMatrixView(n, n, lda), UpLoOf(uplo), DiagOf(diag)))
  }

  /**
   dtrtri, statement by statement: INFO is set to 0, overwritten by the first
   failing check with the argument's position, reported and negated; on error
   the shim returns before any view is built, otherwise it builds the view and
   calls tri (whose effect on A is not modelled). The shim discards whatever
   tri returns, here the parameter triInfo: INFO stays 0 on every forward
   path, a singular A included.
   */
  method Dtrtri(uplo: char, diag: char, n: Integer, lda: Integer, triInfo: Integer)
    returns (info: Integer, report: Option<ErrorReport>, call: Option<TrMatrixView>)
    ensures Outcome(uplo, diag, n, lda).Rejected? ==>
      && info == Outcome(uplo, diag, n, lda).info
      && report == Some(ErrorReport("DTRTRI", -info))
      && call == None
    ensures Outcome(uplo, diag, n, lda).Forward? ==>
      && info == 0
      && report == None
      && call == Some(Outcome(uplo, diag, n, lda).call)
  {
    FirstIllegalArgument(uplo, diag, n, lda);
    report, call := None, None;
    info := 0;
    var upper := uplo == 'U';
    var noUnit := diag == 'N';

    if !upper && uplo != 'L' {
      info := 1;
    } else if !noUnit && diag != 'U' {
      info := 2;
    } else if n < 0 {
      info := 3;
    } else if lda < Max(1, n) {
      info := 5;
    }

    if info != 0 {
      report := Some(ErrorReport("DTRTRI", info));
      info := -info;
      return;
    }

    var upLo := UpLoOf(uplo);
    var d := DiagOf(diag);
    call := Some(TrMatrixView(GeMatrixView(n, n, lda), upLo, d));
    // tri(_A) is called here; its result, triInfo, is dropped.
  }

  /** The shim forwards exactly when every argument is legal. */
  lemma ForwardIffLegal(uplo: char, diag: char, n: Integer, lda: Integer)
    ensures Outcome(uplo, diag, n, lda).Forward? <==>
      (uplo == 'U' || uplo == 'L') && (diag == 'N' || diag == 'U') && 0 <= n && lda >= Max(1, n)
  {
    FirstIllegalArgument(uplo, diag, n, lda);
  }

  /** On the forward path the view is N x N with leading dimension LDA, upper
      exactly when UPLO is 'U' and non-unit exactly when DIAG is 'N'. */
  lemma ForwardView(uplo: char, diag: char, n: Integer, lda: Integer)
    requires Outcome(uplo, diag, n, lda).Forward?
    ensures Outcome(uplo, diag, n, lda).call.ge == GeMatrixView(n, n, lda)
    ensures Outcome(uplo, diag, n, lda).call.upLo == Upper <==> uplo == 'U'
    ensures Outcome(uplo, diag, n, lda).call.diag == NonUnit <==> diag == 'N'
  {
    FirstIllegalArgument(uplo, diag, n, lda);
  }

  /** An UPLO other than exactly 'U' or 'L' gives INFO = -1, whatever the rest. */
  lemma IllegalUpLo(uplo: char, diag: char, n: Integer, lda: Integer)
    requires uplo != 'U' && uplo != 'L'
    ensures Outcome(uplo, diag, n, lda) == Rejected(-1)
  {
    var legal := Legality(uplo, diag, n, lda);
    assert legal == [false] + legal[1..];
    FirstFailureWins([false], legal[1..]);
  }

  /** A legal UPLO with a DIAG other than exactly 'N' or 'U' gives INFO = -2. */
  lemma IllegalDiag(uplo: char, diag: char, n: Integer, lda: Integer)
    requires uplo == 'U' || uplo == 'L'
    requires diag != 'N' && diag != 'U'
    ensures Outcome(uplo, diag, n, lda) == Rejected(-2)
  {
    var legal := Legality(uplo, diag, n, lda);
    assert legal == [true, false] + legal[2..];
    assert FirstInvalid([true, false]) == 2 by {
      assert [true, false][1..] == [false];
    }
    FirstFailureWins([true, false], legal[2..]);
  }

  /** Legal UPLO and DIAG with a negative N gives INFO = -3, whatever LDA is. */
  lemma NegativeOrder(uplo: char, diag: char, n: Integer, lda: Integer)
    requires uplo == 'U' || uplo == 'L'
    requires diag == 'N' || diag == 'U'
    requires n < 0
    ensures Outcome(uplo, diag, n, lda) == Rejected(-3)
  {
    FirstIllegalArgument(uplo, diag, n, lda);
  }

  /** With the earlier checks passing, an LDA below max(1, N) gives INFO = -5. */
  lemma LeadingDimensionTooSmall(uplo: char, diag: char, n: Integer, lda: Integer)
    requires uplo == 'U' || uplo == 'L'
    requires diag == 'N' || diag == 'U'
    requires 0 <= n && lda < Max(1, n)
    ensures Outcome(uplo, diag, n, lda) == Rejected(-5)
  {
    FirstIllegalArgument(uplo, diag, n, lda);
  }

  /** Two boundary cases: LDA = 0 is refused even for N = 0, and lower-case 'u'
      is not an UPLO. */
  lemma BoundaryCases(diag: char, n: Integer, lda: Integer)
    ensures Outcome('U', 'N', 0, 0) == Rejected(-5)
    ensures Outcome('U', 'N', 0, 1).Forward?
    ensures Outcome('u', diag, n, lda) == Rejected(-1)
  {
    FirstIllegalArgument('U', 'N', 0, 0);
    FirstIllegalArgument('U', 'N', 0, 1);
    FirstIllegalArgument('u', diag, n, lda);
  }
}
