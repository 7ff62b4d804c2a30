# bcg729 in Dafny

A model of the G.729 (Annex A and Annex B) speech codec in `submodules/bcg729/src`, with proofs about it. `dafny verify dfyconfig.toml` checks everything.

Loops that work in place are methods over arrays, contexts are classes (`LagDecoder`, `LspDecoder`, `GainDecoder`, `DTXChannel`, `CNGChannel`, `Generator`, and the two frame steps named `Channel`). Each of these is proved equal to a function of its inputs or its old state, and the theorems are about those functions. Two number systems are used:

- An exact layer over `real`, any order and any length, for the algebra: Levinson-Durbin, quadratic forms, LSP polynomials, root search, optimal gains, pitch sharpening.
- A fixed-point layer over `int`, with the shifts, saturations, 16-bit stores, constants and branches of the code, for everything that is exact in the bits: correlation matrix, pulse search, gain search, lags, LSF memories, erasure, comfort noise, bit packing. `bv8` and `bv16` are used where the code works on bytes and fields.

| area | files |
|---|---|
| sizes, sums, arithmetic macros | `CodecParameters`, `RealSums`, `IntSums`, `SumConversion`, `FixedPoint` |
| linear prediction | `Autocorrelation`, `LevinsonDurbin`, `QuadraticForms`, `SignalAutocorrelation`, `LPFilters` |
| DTX filter comparison | `AutocorrelationSum`, `FilterDistance`, `DtxFilters` |
| line spectral pairs | `LspPolynomials`, `Chebyshev`, `LspRootSearch`, `LspInterpolation`, `SeriesRounding`, `LspIntegerSearch` |
| fixed codebook | `CorrelationMatrix`, `PulseEnergy`, `CodebookSearch`, `FixedCodebook`, `Sharpening`, `PulseCode` |
| adaptive codebook and gains | `AdaptiveCodebook`, `PitchLag`, `GainOptimum`, `GainSearch`, `GainQuotient`, `GainDecoding`, `GainFormulas`, `SpeechExcitation` |
| LSF quantisation and erasure | `LsfStability`, `LsfPrediction`, `LsfErasure`, `LsfErasureRuns`, `LsfErasureRanges` |
| silence compression | `ComfortNoise`, `PulseArithmetic`, `NoiseExcitation`, `SilenceCoding` |
| channel and whole runs | `Bitstream`, `LockStep`, `LostPackets`, `EncoderChannel`, `DecoderChannel`, `DecodedExcitation` |

The main results are `LockStep.RunKeepsStep` and `LockStep.FiveFramesRecover` (agreement over whole runs), `LockStep.EveryStreamUsable` (safety for every stream), `QuadraticForms.LevinsonIsOptimal` with `FilterDistance.DistanceAtLeastResidualEnergy`, `LspPolynomials.Factorisation` with the two Chebyshev series lemmas and `LspIntegerSearch.RootsAtSignChanges`, `CodebookSearch.Search` with `FixedCodebook.SearchEnergiesPositive`, `Sharpening.SharpeningMoves`, `LPFilters.PerfectReconstruction`, `DecodedExcitation.ReceivedExcitation`, `NoiseExcitation.SubframeReachesTarget`, `GainOptimum.BestGainsOptimal` with `GainSearch.SearchGains`, `LsfErasureRanges.EveryRunConceals` and `LostPackets.LostPacketsMute`.

Functions shared by both ends whose values do not matter to a property are parameters: the codebooks `L1`, `L2`, `L3` and the SID tables (`Codebooks`), cosine and logarithm (`Models`), the gain prediction with its exponentials (`Maths`), and the two square roots of the comfort noise (`Roots`). What the encoder's searches choose is the input of a frame (`Choice`).

## Where the code and its documentation differ

The model follows the code. The points with a name in brackets are proved there.

- `dtx.c:431` reduces the upper half of the index `L2` by `%0x03`, not by a mask of two bits, so an index survives a SID frame iff it is below 12 (`Bitstream.SidRoundTrip`, `SilenceCoding.SidReceived`). Above it, the LSF memories of both ends stay equal iff two different codebook sums are the same codeword (`LockStep.SidOutOfStep`). The packer at `utils.c:332-339` masks and loses nothing (`Bitstream.CngRoundTrip`).
- SID frames enter the LSF memory but leave the vector that a later erased frame repeats (`HearNoise` in `LockStep`).
- `LP2LSPConversion.c:105`: after a sign change the integer divisor is zero exactly for the values -1 and 0, and the integer interpolation leaves its bisected interval exactly when its step is too long (`LspInterpolation.InterpolationInsideCell`, with an interval in `LspInterpolation.InterpolationLeavesCell`). Its shift by 14 needs values in Q2.15, as the comment there says; just beyond them the point can land above its interval (`LspInterpolation.ShiftLeavesCell`). Where neither happens the integer search keeps its roots in order (`LspIntegerSearch.IntegerRootsOrdered`).
- `LPSynthesisFilter.c` returns the input of the residual filter exactly at these samples: the residual fits 16 bits, and the prediction does not lie halfway between two integers or the sample is 32767; or the residual is saturated, and a tie or the saturation of the output undoes the cut (`LPFilters.PerfectReconstruction`). That is for accumulators inside 32 bits, which coefficients whose magnitudes sum to less than 15 guarantee (`LPFilters.AccumulatorsFit`).
- `gainQuantization.c:133` calls its denominator never negative. It is so without normalisation; after it, rounding can make it negative, by a bounded amount, and cannot where the determinant of the 64-bit sums exceeds that amount (`GainSearch.DenominatorCanBeNegative`, `GainSearch.DenominatorBound`, `GainSearch.DenominatorNonNegative`).
- `decodeLSP.c:98` applies the low limit to element 1 of the LSF vector and not to element 0 (`LsfStability.FirstNotLimited`).
- The rearrangement of `utils.c:104-118` conserves the sum but does not always leave the promised distance (`LsfPrediction.RearrangementLeavesApart` says when, `LsfPrediction.RearrangementMayFail` gives a sum of codebook rows that both passes leave out of order).
- The back-computed codeword of an erased frame repeats the last LSF within 3 units iff it survives its 16-bit store (`LsfErasure.ErasureInvertsPrediction`). It always does, however many frames are lost, where the stability pass of the last good frame left the coefficient alone: after every run of good frames with codewords in the ranges of the codebooks (`LsfErasureRanges.EveryRunConceals`), and from any memory whose last five codewords are near the LSF (`LsfErasureRuns.ErasuresAfterGoodFrame`). That some condition on the memory is needed is shown on an all-zero memory, which no frame leaves behind (`LsfErasureRuns.StoreCanFail`).
- A negative gain stays negative under erasure decay, since the shift rounds down; the decoder is muted iff both gains start non-negative (`GainDecoding.MutesExactlyFromNonNegative`).
- The two ends clamp the sharpening gain at 1.2 and at 0.8 and round its product differently, so equality of the code vectors is claimed only for lags at which nothing is sharpened (`LockStep.SharpeningGains`, `PulseCode.VectorsEqualBeyondSubframe`).
- `dtx.c:43-98` can shift by 32 or more when a silent frame, stored with scale 30, meets one of scale -2 or less. C leaves that undefined; the model takes the mathematical shift.
- `dtx.c:402` keeps the residual energy scale in the unsigned byte of `typedef.h:72`. A negative scale, of loud noise, comes back as 128 or more, and the mean of the next noise frame then takes nothing from the previous one (`SilenceCoding.NegativeScaleForgotten`). The shifts of `dtx.c:311` by 32 or more are again undefined in C and mathematical in the model.
- `cng.c:171` converts eight times the energy to 32 bits before subtracting it, so delta is a quarter of the discriminant iff the energy is below 2^28 (`NoiseExcitation.DiscriminantExact`).
- `cng.c:179-187` adds to the inter-correlation `Ei` a second time without clearing it. That branch does not reach the target energy but the one stated in `NoiseExcitation.FallbackEnergy`.

## Model

| member | source | states |
|---|---|---|
| `FixedPoint.SplitMultiplyIsFloor` | submodules/bcg729/src/fixedPointMacros.h:83-108 | for all factors of any size, the product split into high and low part is the exact product shifted once, rounding downwards |
| `FixedPoint.SplitMultiplyRoundedIsNearest` | submodules/bcg729/src/fixedPointMacros.h:97-107 | the P variants equal the exact product rounded to nearest |
| `FixedPoint.CountLeadingZeros` | submodules/bcg729/src/utils.h:107-116 | the shift brings every positive 32-bit value between 2^30 and 2^31; 31 for zero |
| `LevinsonDurbin.AutoCorrelation2LP` | submodules/bcg729/src/computeLP.c:73-107 | in exact arithmetic, for any order whose running energy never vanishes, the in-place loops end in the monic solution of all normal equations, its residual energy and its reflection coefficients |
| `LevinsonDurbin.NormalEquations` | submodules/bcg729/src/computeLP.c:80-107 | every stage of the recursion solves its Toeplitz system: row 0 gives the residual energy, all other rows vanish |
| `LevinsonDurbin.StepSolves` | submodules/bcg729/src/computeLP.c:86-103 | one iteration carries a solution of order i-1 to one of order i |
| `QuadraticForms.LevinsonIsOptimal` | submodules/bcg729/src/computeLP.c:80-107 | for a positive semidefinite autocorrelation no monic predictor of that order has less energy |
| `QuadraticForms.EnergyAboveSolution` | submodules/bcg729/src/computeLP.c:80-107 | the energy of any monic predictor exceeds that of the solution by the quadratic form of the difference |
| `QuadraticForms.ReflectionInsideUnitInterval` | submodules/bcg729/src/computeLP.c:49-62 | reflection coefficients stay strictly inside (-1, 1) and energies stay positive, which the Q31 formats take for granted |
| `SignalAutocorrelation.FormIsFilteredEnergy` | submodules/bcg729/src/computeLP.c:176-197 | the Toeplitz form of a filter is the energy of the filtered signal, for every filter and signal |
| `SignalAutocorrelation.SignalIsPositiveSemidefinite` | submodules/bcg729/src/computeLP.c:155-197 | autocorrelations of every signal give positive semidefinite forms |
| `SignalAutocorrelation.CombinedIsPositiveSemidefinite` | submodules/bcg729/src/dtx.c:68-75 | sums of autocorrelations of several frames keep that property |
| `Autocorrelation.ComputeAutocorrelation` | submodules/bcg729/src/computeLP.c:155-197 | for every windowed frame and any number of lags: the least scaling that puts r(0) between 2^30 and 2^31, every other lag the exact sum under the same shift and inside 32 bits |
| `Autocorrelation.PartialLagSumBounded` | submodules/bcg729/src/computeLP.c:187-196 | no partial sum at any lag exceeds the energy, so the accumulators of the 32-bit branch cannot overflow |
| `Autocorrelation.LagSum32` | submodules/bcg729/src/computeLP.c:187-196 | the fast branch returns the exact lag sum, every intermediate value fitting 32 bits |
| `Autocorrelation.HalveUntilFits` | submodules/bcg729/src/computeLP.c:162-167 | the loop ends with the energy shifted by the number it counted, between 2^30 and 2^31 |
| `Autocorrelation.ApplyLagWindow` | submodules/bcg729/src/computeLP.c:210-213 | lag windowing in place leaves r(0) and scales every other coefficient with rounding |
| `Autocorrelation.LagWindowShrinks` | submodules/bcg729/src/computeLP.c:210-213 | no coefficient grows under the lag window |
| `Autocorrelation.ComputeLagWindowedAutocorrelation` | submodules/bcg729/src/computeLP.c:134-213 | window, sums, copy for DTX and lag window composed: each windowed sample is the word nearest to sample times window in Q15 |
| `Autocorrelation.FrameIsPositiveSemidefinite` | submodules/bcg729/src/computeLP.c:155-197 | the exact lag sums of every windowed frame are positive semidefinite |
| `AutocorrelationSum.SumAutocorrelationCoefficients` | submodules/bcg729/src/dtx.c:43-98 | for any number of frames in their own scales: the sums in the lowest scale, shifted right by the least amount that fits the largest magnitude into 32 bits, and the matching scale |
| `AutocorrelationSum.HalveToFit` | submodules/bcg729/src/dtx.c:78-82 | the do-while finds the least shift |
| `AutocorrelationSum.SumCloseToExact` | submodules/bcg729/src/dtx.c:60-75 | rescaling loses at most one unit a frame against the exact sum, always downwards |
| `FilterDistance.DistanceIsForm` | submodules/bcg729/src/dtx.c:155-198 | sum of Ra(j) R(j) equals the full double sum over all taps, for every filter and every R |
| `FilterDistance.DistanceAtLeastResidualEnergy` | submodules/bcg729/src/dtx.c:184-198 | the distance is never below the residual energy of the Levinson-Durbin filter, which attains it |
| `DtxFilters.ComputeLPCoefficientAutocorrelation` | submodules/bcg729/src/dtx.c:155-171 | the stored Q20 coefficients, any order, with the implicit first tap |
| `DtxFilters.CompareLPCFilters` | submodules/bcg729/src/dtx.c:184-198 | one exactly when the weighted sum reaches energy times threshold |
| `DtxFilters.FixedCoefficientClose` | submodules/bcg729/src/dtx.c:155-171 | each stored coefficient is the exact one rounded down by at most one unit a product |
| `DtxFilters.ComparisonMeasuresPredictionError` | submodules/bcg729/src/dtx.c:184-198 | the accumulator of the comparison is the prediction error of the filter in Q20 up to an explicit rounding bound |
| `LspPolynomials.SumAndDifference` | submodules/bcg729/src/LP2LSPConversion.c:52-67 | the in-place recurrences compute f1 and f2 for any even order, converted to Q15 |
| `LspPolynomials.FactorsRecovered` | submodules/bcg729/src/LP2LSPConversion.c:55-62 | (1+1/z) F1 is A plus its mirror image and (1-1/z) F2 is A minus it, coefficient by coefficient |
| `LspPolynomials.Factorisation` | submodules/bcg729/src/LP2LSPConversion.c:55-62 | (1+x) F1(x) + (1-x) F2(x) = 2 A(x) at every x |
| `Chebyshev.ChebyshevPolynomial` | submodules/bcg729/src/LP2LSPConversion.c:133-147 | the backward recurrence evaluates the Chebyshev series, for any order and argument |
| `Chebyshev.SeriesOffCircle` | submodules/bcg729/src/LP2LSPConversion.c:123-147 | z^-m F(z) = 2 C((z+1/z)/2) for every real z other than 0 |
| `Chebyshev.SeriesOnCircle` | submodules/bcg729/src/LP2LSPConversion.c:123-147 | on the unit circle z^-m F(z) is real and equals 2 C(Re z) |
| `LspRootSearch.BisectTwice` | submodules/bcg729/src/LP2LSPConversion.c:77-94 | two halvings keep opposite signs at both ends and the interval inside its cell |
| `LspRootSearch.FindRoots` | submodules/bcg729/src/LP2LSPConversion.c:69-120 | in exact arithmetic the search ends either with the requested number of roots, each in the cell of its own sign change with the polynomials alternating, or with no sign change left |
| `LspRootSearch.RootsOrdered` | submodules/bcg729/src/LP2LSPConversion.c:74-116 | roots located in different cells come out non-increasing |
| `LspInterpolation.XorBit28IsSignChange` | submodules/bcg729/src/LP2LSPConversion.c:76 | bit 28 of the exclusive or of two values of that width is set iff their signs differ |
| `LspInterpolation.DivisorZero` | submodules/bcg729/src/LP2LSPConversion.c:105 | after a sign change the integer divisor is zero exactly for the value pair (-1, 0) |
| `LspInterpolation.InterpolationInsideCell` | submodules/bcg729/src/LP2LSPConversion.c:105 | for values in Q2.15, as its comment requires, the integer interpolation stays in its cell exactly when its step is not too long |
| `LspInterpolation.InterpolationLeavesCell` | submodules/bcg729/src/LP2LSPConversion.c:77-105 | a quarter of a grid cell, reached by two halvings, and values for which the interpolated point lies below it |
| `LspInterpolation.ShiftLeavesCell` | submodules/bcg729/src/LP2LSPConversion.c:105 | beyond Q2.15 the 32-bit shift by 14 loses the top bit: a quarter of a grid cell and values for which the point lands above it |
| `LspIntegerSearch.ChebyshevPolynomial` | submodules/bcg729/src/LP2LSPConversion.c:133-147 | for every x in [-1, 1] the result is the Chebyshev series whose coefficients follow each other in f, at x, within eight units of Q15 |
| `SeriesRounding.RecurrenceNearSeries` | submodules/bcg729/src/LP2LSPConversion.c:137-146 | why: five products rounded down, of which three count twice, and no error grows along the recurrence |
| `SeriesRounding.SignOfSeries` | submodules/bcg729/src/LP2LSPConversion.c:76 | beyond those units a computed value has the sign of the exact series |
| `LspIntegerSearch.HalveTwice` | submodules/bcg729/src/LP2LSPConversion.c:82-94 | both halvings, choosing by the tracked values |
| `LspIntegerSearch.FindRoots` | submodules/bcg729/src/LP2LSPConversion.c:69-120 | the whole integer search: the roots are those of the search function, which stops where the code would divide by zero |
| `LspIntegerSearch.PositionInBracket` | submodules/bcg729/src/LP2LSPConversion.c:105 | for tracked values of the width that the shift and the sign test need, a root lies between the bisected ends iff its step is not too long |
| `LspIntegerSearch.IntegerRootsOrdered` | submodules/bcg729/src/LP2LSPConversion.c:69-116 | if no bracket of the search holds a value beyond its width or a step too long, every LSP of the integer search lies in its own grid cell and they come out non-increasing |
| `LspIntegerSearch.RootsAtSignChanges` | submodules/bcg729/src/LP2LSPConversion.c:69-116 | every root the search finds stands for a sign change of its own exact series, within those units: f1 for the first, third and so on, f2 for the others, between the upper end of its bracket and the lower one or the point where the search for it began |
| `LPFilters.ComputeLPResidual` | submodules/bcg729/src/computeWeightedSpeech.c:52-68 | the two residual loops leave at each sample the word nearest to the sample plus the sum of coefficient times earlier sample, in Q12, with the coefficients of their half |
| `LPFilters.LPSynthesisFilter` | submodules/bcg729/src/LPSynthesisFilter.c:36-49 | the loop that reads back its own output leaves at each sample the word nearest to the excitation less that sum over its own earlier output, and the history alone |
| `LPFilters.PerfectReconstruction` | submodules/bcg729/src/LPSynthesisFilter.c:36-49 | for signals of any length and coefficients that may change at every sample, synthesis of the saturated residual returns the signal exactly iff every sample is reproducible: no rounding tie inside 16 bits, and a saturated residual only where a tie or the saturation of the output undoes the cut |
| `LPFilters.AnalyseAndSynthesise` | submodules/bcg729/src/computeWeightedSpeech.c:52-68 | a frame of any 16-bit samples through both filters comes back unchanged iff that condition holds at every sample |
| `LPFilters.SampleReproduced` | submodules/bcg729/src/computeWeightedSpeech.c:55-59 | the same at one sample, the saturation of the residual included |
| `LPFilters.PredictedSignalHasNoResidual` | submodules/bcg729/src/computeWeightedSpeech.c:54-59 | a signal that obeys the recursion of A(z) has residual zero |
| `LPFilters.AccumulatorsFit` | submodules/bcg729/src/LPSynthesisFilter.c:40-47 | for coefficients whose magnitudes sum to less than 15 in Q12 no partial sum of either filter leaves its 32 bits on 16-bit samples, the rounding included |
| `CorrelationMatrix.ComputePhiDiagonal` | submodules/bcg729/src/fixedCodebookSearch.c:382-400 | one diagonal holds the shifted exact correlations, the rest of the matrix is untouched |
| `CorrelationMatrix.DiagonalIsPhi` | submodules/bcg729/src/fixedCodebookSearch.c:380-399 | the recurrence along a diagonal is the sum of h(n-i) h(n-j) from its definition |
| `CorrelationMatrix.ComputeImpulseResponseCorrelationMatrix` | submodules/bcg729/src/fixedCodebookSearch.c:311-378 | after scaling, signs and mirroring every element on different tracks or on the main diagonal holds its definition; the correlation signal holds magnitudes, the signs are kept apart |
| `CorrelationMatrix.ChooseScaling` | submodules/bcg729/src/fixedCodebookSearch.c:325-331 | the shift in 0..3 as a function of the largest element |
| `CorrelationMatrix.ApplySigns` | submodules/bcg729/src/fixedCodebookSearch.c:352-365 | each lower element takes the product of the signs of its row and column |
| `CorrelationMatrix.Mirror` | submodules/bcg729/src/fixedCodebookSearch.c:367-376 | computed elements are copied to their transposed places |
| `CorrelationMatrix.SplitSigns` | submodules/bcg729/src/fixedCodebookSearch.c:340-350 | the signal becomes its magnitude, the sign array its sign |
| `PulseEnergy.FourPulsesUnscaled` | submodules/bcg729/src/fixedCodebookSearch.c:143-171 | with no scaling, 2E is at most the squared norm of the four filtered pulses and at least that less 4 |
| `PulseEnergy.EnergyClose` | submodules/bcg729/src/fixedCodebookSearch.c:143-171 | the same for any number of pulses and any scaling, with an explicit error |
| `PulseEnergy.EnergyPositive` | submodules/bcg729/src/fixedCodebookSearch.c:143-179 | with h(0) = 4096 and scaling 0..3 every energy compared is positive, whatever the response and the signs |
| `PulseEnergy.ElementsFit` | submodules/bcg729/src/fixedCodebookSearch.c:325-331 | the chosen scaling keeps the ten summed elements inside 32 bits |
| `CodebookSearch.BeatsIsRatioOrder` | submodules/bcg729/src/fixedCodebookSearch.c:151-152 | for positive energies the cross-multiplied comparison is the order of the ratios |
| `CodebookSearch.BeatsTransitive` | submodules/bcg729/src/fixedCodebookSearch.c:173-184 | and it is transitive, so a running best dominates everything it replaced |
| `CodebookSearch.TrackMaximum` | submodules/bcg729/src/fixedCodebookSearch.c:132-140 | the largest magnitude of a track other than the excluded position |
| `CodebookSearch.SelectPair` | submodules/bcg729/src/fixedCodebookSearch.c:131-160 | the pair starts from one of the two largest positions of its track and dominates all eight partners of both |
| `CodebookSearch.ScanTrack` | submodules/bcg729/src/fixedCodebookSearch.c:145-158 | after one track the best pair dominates its eight candidates and its start value |
| `CodebookSearch.SelectCompletion` | submodules/bcg729/src/fixedCodebookSearch.c:163-181 | the completion dominates all 64 on its two tracks |
| `CodebookSearch.RunPass` | submodules/bcg729/src/fixedCodebookSearch.c:131-181 | one pass: a pair, then the best completion of it, one pulse on each of its tracks |
| `CodebookSearch.Search` | submodules/bcg729/src/fixedCodebookSearch.c:121-204 | the four pulses lie on tracks 0, 1, 2 and 3+jx, and their score dominates every completion of all four passes |
| `FixedCodebook.SearchEnergiesPositive` | submodules/bcg729/src/fixedCodebookSearch.c:121-204 | every element sum the search forms is positive, which is what makes its comparisons an order |
| `FixedCodebook.SearchPulses` | submodules/bcg729/src/fixedCodebookSearch.c:109-204 | matrix construction and search composed |
| `FixedCodebook.EnergyOfFour` | submodules/bcg729/src/fixedCodebookSearch.c:148-171 | the elements the search adds are the energy of the four pulses |
| `FixedCodebook.ConvolvePulses` | submodules/bcg729/src/fixedCodebookSearch.c:238-278 | four shifted additions in place give the response to the signed pulses |
| `FixedCodebook.ShiftedAddIsConvolution` | submodules/bcg729/src/fixedCodebookSearch.c:233-278 | over every real response that construction is the convolution of the unit pulses with it |
| `FixedCodebook.ResponseAsReal` | submodules/bcg729/src/fixedCodebookSearch.c:238-278 | on an integer response it is what the loops compute |
| `FixedCodebook.SharpenedCodeFiltered` | submodules/bcg729/src/fixedCodebookSearch.c:233-278 | for every real response, lag and gain, shifted additions of the sharpened response are the convolution of the sharpened code with the plain response |
| `Sharpening.SharpenInPlace` | submodules/bcg729/src/fixedCodebookSearch.c:80-83 | the in-place loop feeds back already sharpened samples |
| `Sharpening.SharpeningMoves` | submodules/bcg729/src/fixedCodebookSearch.c:80-83 | in exact arithmetic sharpening the code and sharpening the response filter to the same vector, for every lag, gain, code and response of any length |
| `PulseCode.PositionsRoundTrip` | submodules/bcg729/src/fixedCodebookSearch.c:222-227 | every choice of pulses survives its 13-bit code |
| `PulseCode.CodeRoundTrip` | submodules/bcg729/src/decodeFixedCodeVector.c:43-52 | every 13-bit code decodes to pulses on their tracks and encodes back to itself |
| `PulseCode.SignsRoundTrip` | submodules/bcg729/src/fixedCodebookSearch.c:228-231 | every sign combination survives its four bits |
| `PulseCode.CodeOfPositions` | submodules/bcg729/src/fixedCodebookSearch.c:222-227 | eq 62 on the positions themselves: which bits of the code each pulse takes |
| `PulseCode.CodeOfSigns` | submodules/bcg729/src/fixedCodebookSearch.c:228-231 | eq 61: pulse k sets bit k when it is positive |
| `PulseCode.DecodeFixedCodeVector` | submodules/bcg729/src/decodeFixedCodeVector.c:36-74 | the decoder builds the coded pulses and sharpens them in place with rounding |
| `PulseCode.EncodeFixedCodeVector` | submodules/bcg729/src/fixedCodebookSearch.c:206-231 | the two codes decode to the pulses and signs chosen, and the vector is the decoder's for those codes but for sharpening with truncation |
| `PulseCode.VectorsEqualBeyondSubframe` | submodules/bcg729/src/decodeFixedCodeVector.c:69-73 | both vectors are equal for lags of a subframe or more, whatever the two gains |
| `PulseCode.SharpenedNear` | submodules/bcg729/src/decodeFixedCodeVector.c:69-73 | on either side every sample is that of the exact sharpening, up to the losses accumulated over the lags before it |
| `PulseCode.DecoderDrift` | submodules/bcg729/src/decodeFixedCodeVector.c:69-73 | in the decoder these never exceed two and a half units, at any lag and any gain up to 0.8 |
| `PulseCode.EncoderDrift` | submodules/bcg729/src/fixedCodebookSearch.c:217-220 | in the encoder, with gains up to 1.2, two and a quarter |
| `GainOptimum.ErrorIsQuadratic` | submodules/bcg729/src/gainQuantization.c:76-82 | eq 63 over any number of samples is the quadratic of the five correlations |
| `GainOptimum.CauchySchwarz` | submodules/bcg729/src/gainQuantization.c:133 | yz^2 <= yy zz for vectors of any length |
| `GainOptimum.BestGainsOptimal` | submodules/bcg729/src/gainQuantization.c:128-173 | when yy and the determinant are positive the two closed forms are the only minimiser over all real gains |
| `GainOptimum.DeterminantNonNegative` | submodules/bcg729/src/gainQuantization.c:133-135 | the determinant of exact correlations is never negative |
| `GainSearch.NormaliseTerms` | submodules/bcg729/src/gainQuantization.c:84-126 | one common shift brings all five 64-bit terms into 32 bits, and it is the least that does |
| `GainSearch.DenominatorUnshifted` | submodules/bcg729/src/gainQuantization.c:133-135 | without normalisation the integer denominator is never negative |
| `GainSearch.DenominatorCanBeNegative` | submodules/bcg729/src/gainQuantization.c:112-135 | a vector with three samples at full scale and its opposite: the normalisation shifts their sums by two, no other shift, and the denominator is then negative |
| `GainSearch.DenominatorBound` | submodules/bcg729/src/gainQuantization.c:112-118 | and by how much at most |
| `GainSearch.DenominatorNonNegative` | submodules/bcg729/src/gainQuantization.c:112-135 | under any shift it is not negative if the 64-bit determinant is at least that amount times the square of the shift |
| `GainSearch.Preselect` | submodules/bcg729/src/gainQuantization.c:178-192 | the windows start the stated number of steps before the first threshold reaching the best gain, and always lie inside both codebooks |
| `GainFormulas.ThresholdsAreContributions` | submodules/bcg729/src/gainQuantization.c:181-192 | an entry is passed iff the best gain exceeds what it contributes by itself, before any shift |
| `GainSearch.SearchGains` | submodules/bcg729/src/gainQuantization.c:194-221 | the chosen pair is minimal over the 4 by 8 window and is the first such pair, with its two gains |
| `GainFormulas.SearchedGainIsProduct` | submodules/bcg729/src/gainQuantization.c:198-202 | the fixed gain of a pair is the correction times the predicted gain, less the fraction one shift drops |
| `GainSearch.DistanceIsScaledError` | submodules/bcg729/src/gainQuantization.c:206-211 | the compared integer is eq 63 in Q28 less its constant term |
| `GainSearch.DistanceFits` | submodules/bcg729/src/gainQuantization.c:206-211 | the 64-bit accumulator cannot overflow on normalised terms |
| `GainQuotient.ComputeBestGains` | submodules/bcg729/src/gainQuantization.c:128-173 | both best gains with the shifts the code chooses, a zero denominator included |
| `GainQuotient.ShiftStaysInWord` | submodules/bcg729/src/gainQuantization.c:142-157 | no shift of a numerator that its leading zeros allow reaches 64 bits |
| `GainQuotient.QuotientClose` | submodules/bcg729/src/gainQuantization.c:146-171 | where the gain fits 32 bits, each of the three ways to divide comes within a stated error of the exact quotient |
| `GainQuotient.QuotientsAreBestGains` | submodules/bcg729/src/gainQuantization.c:129-132 | those exact quotients are the minimising gains in Q9 and Q2 |
| `GainQuotient.GainQuantization` | submodules/bcg729/src/gainQuantization.c:76-221 | normalisation, best gains, windows and search composed: the first of the closest pairs of the windows around the quotients |
| `GainSearch.MappingsInverse` | submodules/bcg729/src/codebooks.c:261-264 | the index tables of encoder and decoder are inverse permutations |
| `AdaptiveCodebook.ComputeAdaptativeCodebookVector` | submodules/bcg729/src/decodeAdaptativeCodeVector.c:47-82 | writing the buffer while reading it equals the well-founded recursion on the past alone, and each sample is the word nearest to eq 40 at the lag counted in thirds |
| `AdaptiveCodebook.GenerateAdaptativeCodebookVector` | submodules/bcg729/src/adaptativeCodebookSearch.c:167-195 | the encoder interpolator computes the same vector, with the same law |
| `AdaptiveCodebook.ReadsInRange` | submodules/bcg729/src/decodeAdaptativeCodeVector.c:67-80 | every read is between 153 samples back and 9 before the current one, every filter index in 0..30 |
| `AdaptiveCodebook.DelayInThirds` | submodules/bcg729/src/decodeAdaptativeCodeVector.c:50-58 | whole delay less phase is the lag with its fraction, in thirds of a sample |
| `PitchLag.ThirdIsQuotient` | submodules/bcg729/src/decodeAdaptativeCodeVector.c:118 | x*10923>>15 is x/3 for all 0 <= x < 32768 |
| `PitchLag.FirstRoundTrip` | submodules/bcg729/src/adaptativeCodebookSearch.c:139-144 | every lag the first-subframe search can return survives its 8-bit code |
| `PitchLag.SecondRoundTrip` | submodules/bcg729/src/adaptativeCodebookSearch.c:146-147 | every lag of the second subframe survives its 5-bit code, both sides deriving the same range |
| `PitchLag.LagsInThirds` | submodules/bcg729/src/decodeAdaptativeCodeVector.c:114-154 | both codes count the lag in thirds of a sample: from where on, and with which range in the second subframe |
| `PitchLag.DecodedUsable` | submodules/bcg729/src/decodeAdaptativeCodeVector.c:106-154 | every code decodes to a lag the interpolator accepts |
| `PitchLag.RunUsable` | submodules/bcg729/src/decodeAdaptativeCodeVector.c:106-154 | for every bitstream and every pattern of parity errors and erasures all lags of a run stay usable |
| `PitchLag.LostLagsGrow` | submodules/bcg729/src/decodeAdaptativeCodeVector.c:106-112 | over any run of lost frames the lag grows by one a subframe, up to 143 |
| `PitchLag.LagDecoder.DecodeAdaptativeCodeVector` | submodules/bcg729/src/decodeAdaptativeCodeVector.c:101-160 | lag, state and vector of one subframe, the rest of the buffer untouched |
| `PitchLag.FindDelay` | submodules/bcg729/src/adaptativeCodebookSearch.c:68-79 | the first lag of the range with the largest correlation |
| `PitchLag.CorrelationClose` | submodules/bcg729/src/adaptativeCodebookSearch.c:68-79 | the correlation compared is the inner product of both vectors in Q12, less what its floors drop |
| `PitchLag.FindFraction` | submodules/bcg729/src/adaptativeCodebookSearch.c:87-124 | the best of the three fractions, zero before minus one before one among equals, its vector left in the buffer |
| `PitchLag.AdaptativeCodebookSearch` | submodules/bcg729/src/adaptativeCodebookSearch.c:58-149 | best whole lag, best fraction where one is searched, codeword and the range for the second subframe |
| `PitchLag.OpenLoopRange` | submodules/bcg729/src/encoder.c:278-287 | the first range holds seven lags, the open-loop one among them, inside 20..143 |
| `LsfStability.SortOrders` | submodules/bcg729/src/utils.c:35-53 | the sorted vector is an ordered permutation of the input |
| `LsfStability.InsertionSort` | submodules/bcg729/src/utils.c:35-53 | the in-place sort computes that vector, for any length |
| `LsfStability.SpacedIsMaximum` | submodules/bcg729/src/decodeLSP.c:102-107 | element i becomes the maximum over k <= i of in[k] + 321 (i-k) |
| `LsfStability.SpacedIsLeast` | submodules/bcg729/src/decodeLSP.c:102-107 | no well-spaced vector above the input lies below the output anywhere |
| `LsfStability.SpacedIffRoom` | submodules/bcg729/src/decodeLSP.c:102-107 | with the 16-bit store, the output is spaced iff no pushed value exceeds 32767 |
| `LsfStability.StableOrder` | submodules/bcg729/src/decodeLSP.c:92-112 | after the upper clamp all gaps but the last keep 321, and the order holds iff the last but one is at most 25681 |
| `LsfStability.FirstNotLimited` | submodules/bcg729/src/decodeLSP.c:97-100 | the low limit is applied to element 1: element 0 meets it iff all inputs do |
| `LsfStability.TenHaveRoom` | submodules/bcg729/src/decodeLSP.c:102-107 | ten values up to 29878 never wrap |
| `LsfStability.StableFixes` | submodules/bcg729/src/decodeLSP.c:92-112 | a vector that keeps the distance and both limits passes unchanged |
| `LsfStability.Stabilise` | submodules/bcg729/src/decodeLSP.c:92-112 | the pass in place computes that function |
| `LsfPrediction.RearrangeCoefficients` | submodules/bcg729/src/utils.c:104-118 | the in-place pass with its 16-bit additions and truncating division |
| `LsfPrediction.RearrangedClosedForm` | submodules/bcg729/src/utils.c:104-118 | closed form: each element gains what its own step brings and loses what the next one takes |
| `LsfPrediction.RearrangementConserves` | submodules/bcg729/src/utils.c:109-115 | the pass conserves the sum of the coefficients |
| `LsfPrediction.RearrangementFixesApart` | submodules/bcg729/src/utils.c:109-115 | it leaves a vector alone iff all distances are at least the gap less one |
| `LsfPrediction.RearrangementSeparates` | submodules/bcg729/src/utils.c:95-118 | two neighbours end apart iff what the next pair lacks when its step comes does not exceed the slack that this pair kept |
| `LsfPrediction.RearrangementLeavesApart` | submodules/bcg729/src/utils.c:95-118 | the whole vector ends apart iff that holds at every pair |
| `LsfPrediction.LastPairApart` | submodules/bcg729/src/utils.c:109-115 | the last pair always ends apart |
| `LsfPrediction.RearrangementMayFail` | submodules/bcg729/src/utils.c:95-118 | a sum of codebook rows that the first pass leaves without the promised distance and that is out of order after both |
| `LsfPrediction.ComputeqLSF` | submodules/bcg729/src/decodeLSP.c:64-113 | decoder: prediction with the memory shifted in place column by column, equal to prediction from the old memory followed by a shift of whole codewords |
| `LsfPrediction.Reconstruct` | submodules/bcg729/src/LSPQuantization.c:422-460 | encoder: separate buffer and row copies, equal to the same two functions |
| `LsfPrediction.PredictedIsMean` | submodules/bcg729/src/decodeLSP.c:78-90 | eq 20: each LSF is the word nearest to the weighted sum of the new codeword and the four before it, newest first |
| `LsfErasure.LspDecoder.DecodeLSP` | submodules/bcg729/src/decodeLSP.c:125-187 | good and erased branch over the context, as one step function |
| `LsfErasure.ErasureInvertsPrediction` | submodules/bcg729/src/decodeLSP.c:164-177 | with the integer tables: the codeword entered rebuilds the last qLSF within 3 units iff it survives its 16-bit store |
| `LsfErasure.ErasedRunKeepsFilter` | submodules/bcg729/src/decodeLSP.c:156-178 | in a run of any number of erasures the filter is frozen, the memory shifts as in good frames, and each codeword inverts the prediction in that sense |
| `LsfErasure.ExactErasureInvertsPrediction` | submodules/bcg729/src/decodeLSP.c:164-177 | with an exact reciprocal every erased frame of every run predicts the last qLSF exactly, any predictor order |
| `LsfErasure.TablesAreReciprocal` | submodules/bcg729/src/codebooks.c:216-224 | how far each reciprocal of the table is from exact |
| `LsfErasureRuns.TablesContract` | submodules/bcg729/src/codebooks.c:201-219 | the recurrence behind repeated erasures, differenced twice, contracts to three fifths for both tables and all ten coefficients |
| `LsfErasureRuns.OneErasure` | submodules/bcg729/src/decodeLSP.c:164-177 | from codewords near the frozen LSF the accumulator fits 32 bits and the new codeword satisfies the prediction up to an explicit defect |
| `LsfErasureRuns.ErasuresAfterGoodFrame` | submodules/bcg729/src/decodeLSP.c:156-178 | after a good frame whose coefficient the stability pass left alone, for every number of erasures: no accumulator or store is cut, every codeword stays within a fixed reach of the LSF and predicts it again within 3 units |
| `LsfErasureRuns.SpacedUndisturbed` | submodules/bcg729/src/decodeLSP.c:92-112 | a prediction that keeps the distance and both limits is left alone |
| `LsfErasureRuns.ErasuresAfterFirstFrame` | submodules/bcg729/src/decodeLSP.c:156-178 | a first frame that repeats the initial codeword meets those conditions: no number of losses after it cuts anything |
| `LsfErasureRuns.StoreCanFail` | submodules/bcg729/src/decodeLSP.c:164-177 | some condition on the memory is needed: over an all-zero one, which no frame leaves behind, a codeword does not survive its store |
| `LsfErasureRanges.CodeWordRanged` | submodules/bcg729/src/utils.c:104-118 | both passes keep every coefficient of a codebook sum inside the range of its column |
| `LsfErasureRanges.FirstOvershoot` | submodules/bcg729/src/decodeLSP.c:164-177 | the first codeword computed back leaves the range of the last five by an eighth of its width at most |
| `LsfErasureRanges.HeardRanged` | submodules/bcg729/src/decodeLSP.c:64-113 | every good frame enters a codeword in range, so that four of them fill the memory whatever it was |
| `LsfErasureRanges.InitialMemoryRanged` | submodules/bcg729/src/decodeLSP.c:31-42 | the memory a decoder starts from lies in those ranges |
| `LsfErasureRanges.ErasuresAfterRangedFrame` | submodules/bcg729/src/decodeLSP.c:156-178 | the result of ErasuresAfterGoodFrame for any five codewords in the ranges of the codebooks, however far apart |
| `LsfErasureRanges.EveryRunConceals` | submodules/bcg729/src/decodeLSP.c:125-187 | after every run of good frames, from the initial memory or five of them from any memory: however many frames are then lost, no accumulator and no store is cut and each codeword predicts the last LSF again within 3 units, for every coefficient that the stability pass left alone |
| `GainDecoding.GainDecoder.DecodeGains` | submodules/bcg729/src/decodeGains.c:55-115 | both branches over the context, as one step function |
| `GainDecoding.GainDecoder.DecodeSubframe` | submodules/bcg729/src/decoder.c:259-284 | gains, their bound, and eq 75: each sample becomes the word nearest to the adaptive sample times the adaptive gain plus the code sample times the fixed gain, in Q14 |
| `DecodedExcitation.ReceivedExcitation` | submodules/bcg729/src/decoder.c:232-310 | carried to the history: a received frame adds two subframes that obey eq 75, each with its own lag, code and gains, the second on the past the first one left |
| `DecodedExcitation.ConcealedExcitation` | submodules/bcg729/src/decoder.c:232-310 | the same for a lost frame, with the drawn pulses and attenuated gains |
| `GainFormulas.DecodedIsProduct` | submodules/bcg729/src/decodeGains.c:101-112 | eq 73 and 74: the adaptive gain is a sum of two entries, the fixed one the correction times the predicted gain, within the two roundings |
| `GainFormulas.PredictionIsEq71` | submodules/bcg729/src/utils.c:180-226 | the predicted gain is a power of two whose exponent is that of eq 71 with 0.68, 0.58, 0.34 and 0.19 on the errors from the newest on, within eight units of Q11 |
| `GainFormulas.ErrorIsEq72` | submodules/bcg729/src/utils.c:238-252 | the error entered is 20 log10 of the correction, within one unit of Q10, and the others move up one place |
| `GainFormulas.AttenuationIsNineTenths` | submodules/bcg729/src/decodeGains.c:66-73 | eq 93 and 94: 0.98 of the fixed gain, 0.9 of the adaptive one and at most 0.9, within two units |
| `GainFormulas.AttenuatedErrorIsMean` | submodules/bcg729/src/decodeGains.c:75-91 | the error entered is four decibels below the mean of the four, but not below -14 |
| `GainDecoding.GainsDecay` | submodules/bcg729/src/decodeGains.c:66-73 | an erased subframe strictly decreases each positive gain, keeps zero and keeps a negative gain negative |
| `GainDecoding.GeometricDecay` | submodules/bcg729/src/decodeGains.c:66-73 | the decay is geometric: 35 erased subframes take a binary digit off both gains, from any non-negative gains |
| `GainDecoding.ErasureMutes` | submodules/bcg729/src/decodeGains.c:61-94 | from non-negative gains both are zero after 35 erased subframes for each binary digit of the larger one, or as many as its value if that is less; 525 at most |
| `GainDecoding.MutesExactlyFromNonNegative` | submodules/bcg729/src/decodeGains.c:61-94 | some number of erased subframes mutes the decoder iff both gains were non-negative |
| `GainDecoding.MutedExcitation` | submodules/bcg729/src/decoder.c:278-284 | a muted subframe is zero whatever its two vectors |
| `GainDecoding.ErrorsKeepFloor` | submodules/bcg729/src/decodeGains.c:75-91 | entries at or above -14336 stay there, and after four erased subframes all are, from any state |
| `GainDecoding.ErasureResetsPrediction` | submodules/bcg729/src/decodeGains.c:75-91 | 48 erased subframes bring the prediction memory back to its initial value, from any state |
| `ComfortNoise.NextSeedInjective` | submodules/bcg729/src/utils.c:379-385 | the generator never maps two seeds to one |
| `ComfortNoise.SeedsMeetOnlyIfEqual` | submodules/bcg729/src/utils.c:379-385 | after any number of draws two generators agree iff they started equal |
| `ComfortNoise.DrawSubframe` | submodules/bcg729/src/cng.c:83-123 | the draws of a subframe as a function of the seed, always 483 of them |
| `ComfortNoise.DrawnInRange` | submodules/bcg729/src/cng.c:83-123 | for every seed: a lag in 40..103 the interpolator accepts, one pulse a track, a gain below one half, samples within 3072 |
| `ComfortNoise.DrawnBits` | submodules/bcg729/src/cng.c:83-111 | the first two numbers drawn are made of fraction, lag, pulses and signs, bit field by bit field |
| `ComfortNoise.GaussianIsSum` | submodules/bcg729/src/cng.c:117-123 | each noise sample is the sum of twelve signed numbers over 128 |
| `ComfortNoise.AddPulses` | submodules/bcg729/src/cng.c:214-221 | the pulses added in place, in 16 bits |
| `ComfortNoise.PulsedEnergy` | submodules/bcg729/src/cng.c:151-171 | the energy after the pulses is 4 Gf^2 + 2 Ei Gf + Ea, for integers and any height |
| `ComfortNoise.RootsReachTarget` | submodules/bcg729/src/cng.c:170-211 | in exact arithmetic both roots give the target energy, and the second is the smaller in magnitude iff Ei is negative and the root positive |
| `ComfortNoise.TargetEnergy` | submodules/bcg729/src/cng.c:167-168 | K is exactly the energy of forty samples at the target gain |
| `NoiseExcitation.ScaleGaussian` | submodules/bcg729/src/cng.c:126-138 | the drawn samples scaled to a quarter of the target energy, with both roundings |
| `NoiseExcitation.ScaledIsProduct` | submodules/bcg729/src/cng.c:130-138 | a scaled sample is sample times amplitude within the two roundings, alike for both signs |
| `NoiseExcitation.AmplitudeIsProduct` | submodules/bcg729/src/cng.c:126-128 | the amplitude is the target gain times the inverse root of the energy times 25905 over 2^30, within the floors |
| `NoiseExcitation.Mix` | submodules/bcg729/src/cng.c:141-149 | adaptive part times its gain plus the Gaussian part, saturated twice |
| `NoiseExcitation.MixedIsSum` | submodules/bcg729/src/cng.c:141-149 | each sample is the word nearest to the adaptive one times its gain, plus the Gaussian one, saturated |
| `NoiseExcitation.SolvePulseGain` | submodules/bcg729/src/cng.c:190-211 | for every delta, scaling included, and a square root within err of the exact one: the height is within a stated margin of (sqrt(delta) - Ei)/4 where Ei is not negative and of (-sqrt(delta) - Ei)/4 where it is |
| `PulseArithmetic.HeightClose` | submodules/bcg729/src/cng.c:201-211 | why: root, linear term and shift each err by less than one in their own format, and the format is coarse only where the root is large |
| `PulseArithmetic.EnergyNear` | submodules/bcg729/src/cng.c:151-171 | the quadratic at a height near its exact root |
| `NoiseExcitation.SubframeReachesTarget` | submodules/bcg729/src/cng.c:60-222 | a subframe whose equation has a root is the mixture with pulses of one height, and its energy is that of forty samples at the target gain within a bound that grows with the root |
| `NoiseExcitation.SubframeFallsBack` | submodules/bcg729/src/cng.c:173-222 | without a root it is the Gaussian part with pulses, and its energy is that part plus three halves of the target less the stale product, within the same bound |
| `NoiseExcitation.InsertPulses` | submodules/bcg729/src/cng.c:151-221 | the equation from the mixture, or without the adaptive part when it has no root, and the four pulses |
| `NoiseExcitation.ExciteSubframe` | submodules/bcg729/src/cng.c:66-222 | one subframe as a function of the past excitation, the target gain and what was drawn |
| `NoiseExcitation.ComputeComfortNoiseExcitationVector` | submodules/bcg729/src/cng.c:60-224 | both subframes behind the past excitation |
| `NoiseExcitation.DiscriminantExact` | submodules/bcg729/src/cng.c:170-171 | delta is a quarter of the discriminant iff the energy is below 2^28; from there on its 32-bit conversion cuts it |
| `NoiseExcitation.FallbackEnergy` | submodules/bcg729/src/cng.c:173-188 | in exact arithmetic what the branch without the adaptive part reaches: its energy plus three halves of the target, less twice the pulse height times the stale product |
| `ComfortNoise.SmoothingStep` | submodules/bcg729/src/dtx.c:404-410 | one smoothing step moves towards the received gain, never past it, and rests iff the eighths agree |
| `ComfortNoise.SmoothingIsEighth` | submodules/bcg729/src/dtx.c:404-410 | eq B.19: a step covers an eighth of the way, within one unit |
| `ComfortNoise.SmoothingSettles` | submodules/bcg729/src/cng.c:354-361 | under a constant gain the eighths agree after finitely many frames, for ever |
| `SilenceCoding.QuantiserSound` | submodules/bcg729/src/dtx.c:109-145 | the index fits five bits, is monotone in the energy and determines the decoded energy |
| `SilenceCoding.QuantiserError` | submodules/bcg729/src/dtx.c:130-140 | from 14 dB up the decoded energy is within one dB, except in the first cell |
| `SilenceCoding.LowQuantiserError` | submodules/bcg729/src/dtx.c:115-128 | from -6 to 14 dB it is above the energy by four at most |
| `SilenceCoding.LogEnergyIsDecimal` | submodules/bcg729/src/dtx.c:109-114 | the quantised quantity is the decimal logarithm of the energy in its scale |
| `SilenceCoding.MeanIsHalfSum` | submodules/bcg729/src/dtx.c:307-316 | in both branches twice the mean is the sum of both energies in the lower scale, within four units |
| `SilenceCoding.FirstNoiseIsSid` | submodules/bcg729/src/dtx.c:298-303 | in every run the first noise frame, and the first after speech, is a SID frame |
| `SilenceCoding.SidSpacing` | submodules/bcg729/src/dtx.c:329-340 | SID frames of one noise period are at least three frames apart, in every run |
| `SilenceCoding.ChangeIsSent` | submodules/bcg729/src/dtx.c:319-340 | from the third frame after a SID frame on, a frame is sent iff the filter changed or the decoded energy differs by more than two decibels from the one sent last |
| `SilenceCoding.CounterInRange` | submodules/bcg729/src/dtx.c:330-353 | the counter stays in 0..3 over every run |
| `SilenceCoding.GainsInRange` | submodules/bcg729/src/dtx.c:395-410 | sent and smoothed gains stay inside the codebook range over every run, so no 16-bit store cuts them |
| `SilenceCoding.NegativeScaleForgotten` | submodules/bcg729/src/dtx.c:307-316 | the stored scale is the scale iff that is not negative; after a negative one the mean over two frames takes nothing from the first |
| `SilenceCoding.DTXChannel.Decide` | submodules/bcg729/src/dtx.c:298-342 | the decision over the context: energy quantised, frame counted, sent or not |
| `SilenceCoding.DTXChannel.EncodeSIDFrame` | submodules/bcg729/src/dtx.c:284-441 | the whole step over context, LSF memory, previous LSPs and generator, with the bytes it sends: as 16 bits L0, L1, L2 modulo 12, and the gain index |
| `SilenceCoding.CNGChannel.DecodeSIDframe` | submodules/bcg729/src/cng.c:317-365 | the decoding step over context, LSF memory, previous LSPs, generator and excitation |
| `SilenceCoding.SidReceived` | submodules/bcg729/src/cng.c:319-324 | every index of a SID frame is read back, L2 only modulo 12 |
| `SilenceCoding.InterpolatedIsMean` | submodules/bcg729/src/interpolateqLSP.c:35-41 | each interpolated LSP is the word nearest to the mean of both |
| `SilenceCoding.NoisePredictors` | submodules/bcg729/src/codebooks.c:227-245 | the first noise predictor is the first of speech, the second one 0.6 of that and 0.4 of the other, within two units |
| `Bitstream.PackRoundTrip` | submodules/bcg729/src/utils.c:350-369 | every 15 parameters inside their fields survive the ten bytes |
| `Bitstream.UnpackRoundTrip` | submodules/bcg729/src/utils.c:282-316 | every ten bytes unpack to fields and pack to the same bytes |
| `Bitstream.ParametersArray2BitStream` | submodules/bcg729/src/utils.c:282-316 | the ten bytes as one number are L0 2^79 + L1 2^72 + L2 2^67 + L3 2^62 + P1 2^54 + P0 2^53 + C1 2^40 + S1 2^36 + GA1 2^33 + GB1 2^29 + P2 2^24 + C2 2^11 + S2 2^7 + GA2 2^4 + GB2, for all fields in range |
| `Bitstream.ParametersBitStream2Array` | submodules/bcg729/src/utils.c:350-369 | for any ten bytes the parameters are the fields of that number |
| `Bitstream.ComputeParity` | submodules/bcg729/src/utils.c:81-93 | the loop folds the six high bits of the lag code |
| `Bitstream.ParityMakesOdd` | submodules/bcg729/src/utils.c:81-93 | the parity bit makes the number of ones among those six and itself odd |
| `Bitstream.ParityErrorIffOdd` | submodules/bcg729/src/decoder.c:229-230 | the decoder sees a parity error iff an odd number of the six bits and the parity bit were changed |
| `Bitstream.SidRoundTrip` | submodules/bcg729/src/dtx.c:426-433 | L0, L1 and gain survive SID packing; L2 does iff it is below 12 |
| `Bitstream.PackedIsSidNumber` | submodules/bcg729/src/dtx.c:426-433 | the two bytes as one number are L0 2^15 + L1 2^10 + L2 2^6 + 2 gain, with 12 less for an L2 from 12 on |
| `Bitstream.UnpackedIsSidNumber` | submodules/bcg729/src/cng.c:319-324 | for any two bytes the indices read are the fields of their number, but for its last bit |
| `Bitstream.CngRoundTrip` | submodules/bcg729/src/utils.c:332-339 | the other packer, which masks, loses nothing |
| `LockStep.SpeechKeepsStep` | submodules/bcg729/src/encoder.c:234-350 | a speech frame keeps all shared state equal and is decoded with the lags, pulses, signs, gain and correction factor that were chosen |
| `LockStep.SpeechExchange` | submodules/bcg729/src/decoder.c:215-271 | memories of both sides after one speech frame, from any two states |
| `LockStep.NoiseKeepsStep` | submodules/bcg729/src/decoder.c:159-198 | a SID frame with L2 below 12 or an untransmitted frame keeps all shared state equal, and the decoder draws the lags and pulses that the generator of the encoder draws |
| `LockStep.RunKeepsStep` | submodules/bcg729/src/decoder.c:159-271 | over every erasure-free run of speech, SID and untransmitted frames both sides agree on LSF memory, LSPs, gain-prediction memory, activity, seed and comfort-noise gains |
| `LockStep.EveryFrameHeardAsChosen` | submodules/bcg729/src/decoder.c:232-262 | from start-up every speech frame of such a run is decoded as it was chosen |
| `LockStep.UntransmittedIsComfortNoise` | submodules/bcg729/src/decoder.c:159-171 | a frame that was not sent always takes the comfort-noise path |
| `LockStep.SidOutOfStep` | submodules/bcg729/src/dtx.c:431 | a SID frame with L2 of 12 or more keeps the LSF memories equal iff two different codebook sums give the same codeword |
| `LockStep.SharpeningGains` | submodules/bcg729/src/encoder.c:348-350 | the two sharpening gains agree after a speech frame iff the gain is at most 13107, after a noise frame iff the encoder held its minimum |
| `LockStep.FiveFramesRecover` | submodules/bcg729/src/decodeLSP.c:80-85 | from any two states, whatever was lost, five received speech frames restore full agreement |
| `LockStep.EveryStreamUsable` | submodules/bcg729/src/decoder.c:149-262 | after every sequence of packets, for a packet of any kind, received with arbitrary bytes, lost, SID or comfort noise: both lags keep the interpolation inside the buffer and all pulses are on their tracks |
| `LockStep.ParametersSurvive` | submodules/bcg729/src/encoder.c:314-344 | the parameters of every speech frame are read back as the numbers they were |
| `LostPackets.LostGains` | submodules/bcg729/src/decodeGains.c:61-94 | k lost packets of an active decoder are 2k erased subframes for its gains and its prediction memory |
| `LostPackets.MutedFrame` | submodules/bcg729/src/decoder.c:278-310 | once muted, a lost packet moves eighty zeros into the past excitation |
| `LostPackets.LostPacketsMute` | submodules/bcg729/src/decoder.c:208-310 | from any state with non-negative gains: a number of lost packets logarithmic in the larger gain mutes the decoder, two more clear its whole excitation history, 24 reset its prediction memory, for as long as nothing is received |
| `LostPackets.AnyDecoderMutes` | submodules/bcg729/src/decoder.c:208-310 | 263 lost packets mute any decoder with non-negative gains and 265 clear its excitation history, whatever it received before |
| `DecoderChannel.Channel.Decode` | submodules/bcg729/src/decoder.c:149-315 | the frame step over the whole context, excitation history included, with the lags and pulses used, is the decoder step of the runs |
| `DecoderChannel.Channel.DecodeSubframe` | submodules/bcg729/src/decoder.c:234-284 | lag, code, gains and excitation of one subframe, good or erased |
| `DecoderChannel.Channel.DecodeExcitation` | submodules/bcg729/src/decoder.c:232-310 | both subframes and the history they leave |
| `DecoderChannel.Channel.DecodeSpeech` | submodules/bcg729/src/decoder.c:208-262 | the active branch of a received frame |
| `DecoderChannel.Channel.Conceal` | submodules/bcg729/src/decoder.c:208-262 | the active branch of a lost frame |
| `DecoderChannel.Channel.DecodeNoise` | submodules/bcg729/src/decoder.c:168-206 | the comfort-noise branch with its excitation |
| `DecoderChannel.Channel.ShiftExcitation` | submodules/bcg729/src/decoder.c:309-310 | the past excitation is the last 154 samples |
| `SpeechExcitation.MutedSubframe` | submodules/bcg729/src/decoder.c:278-284 | with both gains zero the new excitation is zero for every lag, code and past |
| `EncoderChannel.Channel.Encode` | submodules/bcg729/src/encoder.c:158-350 | the frame step over the context is the encoder step of the runs |
| `EncoderChannel.Channel.PackSpeech` | submodules/bcg729/src/encoder.c:314-344 | the bytes are the number whose fields are the indices and codes chosen, with the parity bit |
| `EncoderChannel.Channel.QuantiseSpectrum` | submodules/bcg729/src/encoder.c:234-242 | LSF memory and LSPs after a speech frame |
| `EncoderChannel.Channel.UpdateGains` | submodules/bcg729/src/encoder.c:346-350 | prediction memory and bounded gain after a subframe |

## Left out

Deliberately weaker than the code:

- LevinsonDurbin.AutoCorrelation2LP: exact arithmetic; the Q27 to Q12 rounding, the 32-bit divisions and the scaled autocorrelation input are not modelled, because the identity is about the recursion. The same holds for the reflection coefficients' Q31 format.
- LspPolynomials.SumAndDifference: the sums are exact integers; 16-bit overflow of the Q12 to Q15 conversion is not modelled.
- Chebyshev.ChebyshevPolynomial: exact arithmetic in place of Q15 products, any order instead of five; `LspIntegerSearch.ChebyshevPolynomial` has the Q15 recurrence and its error.
- LspRootSearch.BisectTwice: exact midpoints; `LspIntegerSearch.HalveTwice` has the integer ones.
- LspRootSearch.FindRoots: exact arithmetic with any grid; the integer search is `LspIntegerSearch.FindRoots`.
- LspIntegerSearch.FindRoots: where the code divides by zero the search stops and reports too few roots.
- LPFilters.PerfectReconstruction: unbounded accumulators, where C leaves an overflow of 32 bits undefined; `LPFilters.AccumulatorsFit` says for which coefficients there is none.
- LPFilters.AnalyseAndSynthesise: the same.
- LsfErasureRanges.EveryRunConceals: the codebooks enter through the ranges of their columns, read off the tables; coefficients that the stability pass moved are not covered.
- LsfErasure.ErasureInvertsPrediction: assumes that the 32-bit accumulator does not overflow, since C leaves that undefined.
- LsfErasure.ErasedRunKeepsFilter: makes that assumption after n erasures; `LsfErasureRuns.ErasuresAfterGoodFrame` and `LsfErasureRanges.EveryRunConceals` derive it from the good frames before them.
- LsfStability.SpacedIffRoom: the store is modelled as wrapping to 16 bits.
- GainOptimum.BestGainsOptimal: real division; the integer quotients of lines 133-173 of gainQuantization.c are in `GainQuotient`.
- FixedCodebook.SearchPulses: assumes that the largest diagonal element fits 32 bits; starts from the correlation signal; the target update and the correlation with the impulse response at lines 75-107 of fixedCodebookSearch.c are not modelled.
- PitchLag.AdaptativeCodebookSearch: leaves out the open-loop search and the gain of the adaptive codebook.
- ComfortNoise.RootsReachTarget: exact arithmetic with a given root; the scaled integers of lines 189-211 of cng.c are in `NoiseExcitation.SolvePulseGain`.
- NoiseExcitation.SubframeReachesTarget: the energy before the 16-bit stores of the four pulses, for an energy below 2^28; the square root is any function within a stated error.
- NoiseExcitation.ExciteSubframe: the sums of squares and products are unbounded where C leaves an overflow of 32 bits undefined.
- SilenceCoding.QuantiserSound: the logarithm is an argument.
- SilenceCoding.DTXChannel.EncodeSIDFrame: the filter comparison and the LSP search of noise frames are inputs (`Noise`); the moving average filter choice that updates the reference autocorrelations is not modelled, and of the comfort noise only the draws are.
- SilenceCoding.CNGChannel.DecodeSIDframe: payloads of RFC 3389 are not modelled.
- DecoderChannel.Channel.Decode: stops at the excitation; LP synthesis and post-filter are not part of the frame step. A packet is lost, two bytes or ten bytes; one that is present and yet flagged as erased is not modelled.
- Sharpening.SharpenInPlace: exact arithmetic; the truncated and the rounded products are in `PulseCode.SharpenInPlace`, their errors in `PulseCode.SharpenedNear`.
- EncoderChannel.Channel.Encode: what the searches choose is an input, and the memories that only the searches read are not modelled.
- LockStep.RunKeepsStep: does not claim equal fixed gains or excitations, which the code does not keep.

Not modelled:

- Voice activity detection, pre-processing, post-filter, post-processing, and the conversion of LSPs to LP coefficients.
- The LSP codebook searches with their weights, and the open-loop pitch analysis.
- The polynomial approximations of cosine, arc cosine, logarithm, exponential and square root.
- The contents of the LSP codebooks, beyond the ranges of their columns, and of the analysis window.
- The comfort-noise entry points for RFC 3389 payloads, beyond their packing.
- 16-bit and 32-bit overflow other than where a contract states a range or a store.
- Memory allocation and aliasing of caller buffers.
- The mediastreamer wrappers, the application and its user interface headers, and the build scripts: no behaviour beyond calls into libraries that are elsewhere.
