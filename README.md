# FLENS LAPACK interface shims: dtrtri and dgetrf argument checking

This project models the argument-checking front end of two C-callable LAPACK
entry points in FLENS, `dtrtri` (inverse of a triangular matrix) and `dgetrf`
(LU factorization with partial pivoting). Each shim checks its scalar
arguments in a fixed order. The first failure is handed to the error reporter
as the position of the illegal argument (`dtrtri` stores that position in the
output status `INFO` directly; `dgetrf` stores the negative code and flips it
to the position just before the reporter runs). The caller sees it as `INFO = -i`, the convention of section 7.3.1
of the LAPACK Users' Guide (3rd ed.), "Invalid Arguments and XERBLA". On an
error the shim returns at once. Otherwise it builds the matrix (and, for
`dgetrf`, pivot-vector) views and calls the FLENS kernel (`tri` or `trf`).

Layout:

- `lapack.dfy`, module `Lapack`: the 32-bit `Integer` of the interface,
  `std::max`, the `StorageUpLo`/`Diag` tags, the views
  (`GeMatrixView`, `TrMatrixView`, `DenseVectorView`), the `ErrorReport` record
  of a reporter call, the `Outcome` of a shim (`Rejected(info)` or
  `Forward(call)`), and `FirstInvalid`, the LAPACK convention as a reference
  definition over the legality of each argument in call order.
- `trtri.dfy`, module `Trtri`, and `getrf.dfy`, module `Getrf`: per shim,
  the legality table of its arguments, the specification function `Outcome`
  that applies the convention to it, the method (`Dtrtri`, `Dgetrf`) that
  follows the shim statement by statement with a mutable `info`, the lemma
  that the shim's chain of checks picks the same argument as the convention,
  and lemmas for each error case and for the forward path.

Each method returns what the C function leaves behind: the final `INFO`, the
reporter call it made (if any), and the kernel call it made (if any), given as
the views handed over. The kernels are opaque. `trf`'s return value is a
parameter of `Dgetrf` (`trfInfo`), and `INFO` becomes exactly that value on
the forward path. The shim discards whatever `tri` returns (trtri.cc:55):
`Dtrtri` takes that value as the parameter `triInfo` and its contract keeps
INFO at 0 on every forward path, whatever `triInfo` is.

## Model

| member | source | states |
|---|---|---|
| `Lapack.FirstInvalid` | flens/lapack/interface/src/trtri.cc:28-36 | The LAPACK convention: the result is 0 iff every argument is legal; otherwise it is a position k with argument k illegal and every argument before k legal |
| `Lapack.FirstFailureWins` | flens/lapack/interface/src/getrf.cc:28-34 | Once some argument is illegal, the legality of any arguments after it does not change the reported position |
| `Lapack.Max` | flens/lapack/interface/src/trtri.cc:34 | `std::max`: the result is at least each argument and equals one of them |
| `Trtri.FirstIllegalArgument` | flens/lapack/interface/src/trtri.cc:28-36 | The convention applied to dtrtri's legality table picks the same argument as the shim's chain: UPLO (1), then DIAG (2), then N (3), then LDA (5); argument 4 (A) is never picked |
| `Trtri.Outcome` | flens/lapack/interface/src/trtri.cc:24-50 | A rejection's INFO is always one of -1, -2, -3, -5, never -4; a forwarded view has N >= 0 and LDA >= max(1, N) |
| `Trtri.Legality` | flens/lapack/interface/src/trtri.cc:28-35 | dtrtri's legality table has five slots, the A slot (4) is always legal, and no slot is illegal exactly when UPLO is 'U' or 'L', DIAG is 'N' or 'U' (case-sensitive), N >= 0 and LDA >= max(1, N) |
| `Trtri.UpLoOf` | flens/lapack/interface/src/trtri.cc:47 | Decoding a legal UPLO gives the tag whose character is that UPLO (round trip with `UpLoChar`) |
| `Trtri.DiagOf` | flens/lapack/interface/src/trtri.cc:48 | Decoding a legal DIAG gives the tag whose character is that DIAG (round trip with `DiagChar`) |
| `Trtri.TagRoundTrip` | flens/lapack/interface/src/trtri.cc:47-48 | The other direction: every tag is decoded back from its own character |
| `Trtri.Dtrtri` | flens/lapack/interface/src/trtri.cc:24-55 | On rejection INFO is the negative code, the reporter ran with the positive code and no view was built and `tri` was not called; on acceptance INFO = 0 whatever `tri` returned, nothing was reported and `tri` got the N x N view |
| `Trtri.ForwardIffLegal` | flens/lapack/interface/src/trtri.cc:24-42 | The kernel is reached iff UPLO is 'U' or 'L', DIAG is 'N' or 'U', N >= 0 and LDA >= max(1, N) |
| `Trtri.ForwardView` | flens/lapack/interface/src/trtri.cc:25-50 | On the forward path the view is N x N with leading dimension LDA, upper iff UPLO = 'U', non-unit iff DIAG = 'N' |
| `Trtri.IllegalUpLo` | flens/lapack/interface/src/trtri.cc:25-40 | An UPLO other than exactly 'U' or 'L' gives INFO = -1 whatever the other arguments (derived from `Lapack.FirstFailureWins`) |
| `Trtri.IllegalDiag` | flens/lapack/interface/src/trtri.cc:26-40 | A legal UPLO with a DIAG other than exactly 'N' or 'U' gives INFO = -2 |
| `Trtri.NegativeOrder` | flens/lapack/interface/src/trtri.cc:32-40 | Legal UPLO and DIAG with N < 0 give INFO = -3 whatever LDA |
| `Trtri.LeadingDimensionTooSmall` | flens/lapack/interface/src/trtri.cc:34-40 | With the earlier checks passing, LDA < max(1, N) gives INFO = -5 |
| `Trtri.BoundaryCases` | flens/lapack/interface/src/trtri.cc:25-35 | LDA = 0 is refused (-5) even when N = 0 while LDA = 1 is accepted, and lower-case 'u' is refused as UPLO (-1) |
| `Getrf.Legality` | flens/lapack/interface/src/getrf.cc:28-33 | dgetrf's legality table has four slots, the A slot (3) is always legal, and no slot is illegal exactly when M >= 0, N >= 0 and LDA >= max(1, M), the bound taken from M and not N |
| `Getrf.FirstIllegalArgument` | flens/lapack/interface/src/getrf.cc:27-34 | The convention applied to dgetrf's legality table picks the same argument as the shim's chain: M (1), then N (2), then LDA (4); argument 3 (A) is never picked |
| `Getrf.Outcome` | flens/lapack/interface/src/getrf.cc:27-46 | A rejection's INFO is always one of -1, -2, -4, never -3; the forwarded A view has M, N >= 0 and LDA >= max(1, M), and the pivot view has length M |
| `Getrf.Dgetrf` | flens/lapack/interface/src/getrf.cc:27-48 | On rejection INFO is the check's negative code unchanged, the reporter saw its positive form, no view was built and `trf` was not called; on acceptance nothing was reported, `trf` got the views and INFO is exactly `trf`'s return value |
| `Getrf.ForwardIffLegal` | flens/lapack/interface/src/getrf.cc:27-40 | The kernel is reached iff M >= 0, N >= 0 and LDA >= max(1, M) |
| `Getrf.ForwardViews` | flens/lapack/interface/src/getrf.cc:45-46 | On the forward path A is viewed as M x N with leading dimension LDA and IPIV with length M and stride 1 |
| `Getrf.NegativeRows` | flens/lapack/interface/src/getrf.cc:28-29 | M < 0 gives INFO = -1 whatever N and LDA |
| `Getrf.NegativeColumns` | flens/lapack/interface/src/getrf.cc:30-31 | M >= 0 with N < 0 gives INFO = -2 whatever LDA |
| `Getrf.LeadingDimensionTooSmall` | flens/lapack/interface/src/getrf.cc:32-33 | M, N >= 0 with LDA < max(1, M) gives INFO = -4 |
| `Getrf.BoundaryCases` | flens/lapack/interface/src/getrf.cc:32 | The LDA bound follows M, not N: a 2 x 5 matrix with LDA = 2 is accepted; LDA = 0 is refused (-4) even for a 0 x 0 matrix |

## Left out

- The kernels `tri` (flens/lapack/interface/src/trtri.cc:55) and `trf` (flens/lapack/interface/src/getrf.cc:48): floating-point code outside this model. A call is recorded only by the views it receives. `trf`'s result is the parameter `trfInfo` and becomes INFO. `tri`'s result is the parameter `triInfo` and is discarded by the shim, so a status `tri` might report (such as a singular A) never reaches the caller: INFO is 0 on every forward path.
- The contents of A and IPIV: the model records no matrix data. "A is untouched on error" is stated as "no view was built and no kernel was called", not as a property of memory.
- `LAPACK_ERROR` (trtri.cc:39, getrf.cc:37): its logging or aborting effect is not modelled. Only the routine name and the value of INFO it sees are recorded. The reporter receives the pointer INFO but is taken not to change it; `Getrf.Dgetrf`'s "the caller sees the check's code unchanged" rests on this, since getrf.cc:38 negates whatever INFO holds after the call.
- `DEBUG_FLENS_LAPACK` (trtri.cc:18): a debug trace with no effect on the result. As written it is labelled "dgetri" inside `dtrtri`.
- `cxxblas::getCxxBlasEnum` (trtri.cc:47-48) is not part of this model. On the legal characters it is taken to map 'U' to Upper and 'L' to Lower for UPLO, and 'N' to NonUnit and 'U' to Unit for DIAG.
- `DFSView`, `IArrayView` and `DTrMatrixView` (trtri.cc:50, getrf.cc:45-46): only the dimensions, leading dimension and stride passed to them are recorded. The raw pointers are not.
- The `INTEGER` typedef (config.h) is not part of this model. It is taken as a 32-bit signed integer. No expression in either shim can overflow.
- The macro definitions at getrf.cc:1-6 (`STR`, `STRING`, `FLENS_DEFAULT_INDEXTYPE` and a commented-out debug hook): build plumbing.
- The declarations in flens/lapack/la/laqr3.h, flens/lapack/impl/qrf.h and flens/lapack/pb/pbsv.h: no bodies, and floating-point numerics.
