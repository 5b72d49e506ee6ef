# Verification of the Capsim signal-processing blocks

This project models the signal-processing blocks of the Capsim text-mode kernel and proves what they compute. A block is
one C function with persistent state; a scheduler visits it again and again, and on a visit it takes samples from input
buffers and puts samples into output buffers, either of which may stop it. Every block here is a class with the source's
own state fields. Its methods follow the source's loops, and their contracts say, for every visit, what the new state is
and which samples have been put out. The statements hold for any number of visits, any number of samples per visit and,
where the source answers a full buffer by saving its work, any pattern of refusals.

`Kernel` holds the two buffers a block sees. An input buffer hands out its samples in order; an output buffer answers each
request for a cell by a `plan`, an arbitrary list of grants and refusals. Any non-zero status of a block ends the run
(KERNEL/krn_run.c:497-498), which is why a refusal answered with 99 has no next visit to describe.

| file | what it models |
|---|---|
| Complex, Dft, Fft, RealFft | the complex and real fast Fourier transforms of SUBS/cap_fft.c and SUBS/cap_fftr.c, from the in-place butterflies and the recursive decomposition up to the real transform and its inverse, against naive Fourier sums |
| Convolution, FastConvolution | direct, circular and overlap-save convolution; `convolve`, `fconv` and the spectral product `cmultfftcap` |
| Inventory | the event-driven inventory simulator `inventory` |
| SnrSetting | the preamble detector `cxsetsnr` |
| Lattice, LatticeForm | the fixed-point normalised lattice `fxnl`; its direct form, and how near the integer code stays to the exact lattice |
| Lms, Vectors | least-mean-squares adaptation `lms` |
| Correlator | the matched correlator `cxcorr` |
| Cascade | the cascade of second-order sections `iirfil` |
| Decimation | the weighted decimator `decimate` |
| BitSource | the pseudo-random bit source `bdata` |
| MarkerSplit | bits to bytes to marker-delimited vectors, `bitvec` |
| LineCode | the line coder with back-pressure, `linecode` |
| Encoder | the bit encoder, `encoder` |
| FramePacking | frames packed in bytes and read out again, `bitmanip` |
| Tiling | `imgbreakup` and `imgbuild` |
| EigenSort | the in-place eigenvalue sort `eigsrt` |
| Kernel, DelayLine, Arith | buffers, the shared tapped delay line, integer division and the float-to-int conversion |

Floats are exact reals. Where a law the block is for turns out not to hold for every parameter, the code is kept as it is
and the exact condition is proved:

* `fconv` passes half the transform length to `cmultfftcap`, which stops one bin short of it, so the two highest bins of
  the spectrum are never multiplied by the response. Overlap-save is a prefix of the direct convolution for every input
  if and only if the response is 1 at those bins (`FastIsDirectExactly`; `GainTwoFails` is a response for which it fails).
* `bdata` is not a maximal-length source: the states fall on cycles of length 1, 3, 511 and 1533, and a state returns after
  n steps if and only if its own length, which two parities and four exceptions decide, divides n (`PeriodExactly`).
* The parabolic window of `decimate` sums a weight that it rewrites later, so its norm is wrong for every positive even length
  and for length 3 (`NormIsSumExactly`), and exactly then a constant input does not come out unchanged
  (`WindowPassesConstantsExactly`). Its triangular window is a triangle exactly for even lengths (`TriangularExactly`).
* `imgbreakup` cannot break up an image, and stops with status 4, exactly when the image is empty or a tile size does not
  divide its own (`CompleteExactly`).
* `bitmanip` returns a frame unchanged for every content exactly when the frame length is a multiple of eight
  (`FrameIntactExactly`; `ReissuedBit` says what comes out instead).
* `iirfil` reads coefficients for up to 35 sections, but its history vector holds at most 7 (`HistoryFitsExactly`).
* `inventory` keeps an integer stock, so a fractional demand is rounded away (`StockBalancesExactly`), and overwrites an
  outstanding order in some run exactly when a lag can exceed one month and the run is longer than one (`OneOrderExactly`,
  `NoOrderFoundExactly`).
* `cxsetsnr` accepts a window as long as the preamble, and then writes past its preamble buffer in some run, further out
  with every sample; every write is inside, in every run, exactly when the window is shorter (`PreambleWritesExactly`,
  `EqualSizesRunAway`).
* In `fxnl` the cast binds tighter than the scaling, so a sample is truncated before it is scaled. That is harmless for
  every sample exactly when the number of levels divides twice the range (`QuantiserExactly`); otherwise the sample worth
  exactly one step is read as zero (`FirstStepVanishes`).
* `lms` never lets the weight error grow, for inputs of at most size b and no disturbance, exactly when the step size lies
  between zero and two over the power of a full line (`SafeStepExactly`).
* The differential Manchester decoder reads the first bit of a polarity-inverted line correctly exactly when its reference
  level is inverted too (`PolarityFree`).

## Model

| member | source | states |
|---|---|---|
| Dft.Radix2 | SUBS/cap_fft.c:37-58 | Both halves of the bins of a sequence come from the bins of its even and odd phases and one twiddle factor, for every power-of-two length and every primitive root |
| Dft.Radix4 | SUBS/cap_fft.c:60-105 | All four quarters of the bins come from the bins of the four phases by the radix-4 butterfly, for either direction |
| Dft.Inversion | SUBS/cap_fft.c:324-356 | Transforming with a root and back with its inverse gives n times the sequence |
| Dft.GeometricSum | SUBS/cap_fft.c:324-356 | The sum of the powers of a primitive root vanishes at every exponent strictly between zero and the length |
| Fft.NextRadix | SUBS/cap_fft.c:302-310 | The radix settled on divides what is left of the length, and stays the same while it does; four gives way to two |
| Fft.Factor | SUBS/cap_fft.c:294-315 | The factor list multiplies up to the length stage by stage and, for a power of two, holds radices 4 and 2 only |
| Fft.Butterfly2 | SUBS/cap_fft.c:37-58 | In place, cells u and m+u become sum and difference with the twiddled second half; no other cell changes |
| Fft.Butterfly4 | SUBS/cap_fft.c:60-105 | In place, the four cells of every column become the radix-4 combination for the direction in force; no other cell changes |
| Fft.Work | SUBS/cap_fft.c:252-287 | The recursive decomposition leaves in its part of the array the naive Fourier sums of the strided source, for every chain of stages, and touches nothing else |
| Fft.WorkPhases | SUBS/cap_fft.c:266-276 | The loop over the phases leaves the transforms of all the phases side by side |
| Fft.Stage2 | SUBS/cap_fft.c:278-286 | A radix-2 stage turns the transforms of two phases into the transform of the whole |
| Fft.Stage4 | SUBS/cap_fft.c:278-286 | A radix-4 stage turns the transforms of four phases into the transform of the whole |
| RealFft.UnpackBins | SUBS/cap_fftr.c:107-122 | The unpacking arithmetic yields bins k and m-k of a real sequence from the half-length transform of its packed form |
| RealFft.EndBins | SUBS/cap_fftr.c:94-105 | The first and last bin of a real sequence are the sum and the difference of the two parts of the first bin of the packed transform |
| RealFft.FoldedBin | SUBS/cap_fftr.c:141-153 | Folding a Hermitian spectrum gives the half-length spectrum whose inverse holds the samples in pairs |
| RealFft.RepackBins | SUBS/cap_fftr.c:141-159 | The repacking arithmetic yields cells k and m-k of the folded spectrum |
| RealFft.HermitianReal | SUBS/cap_fftr.c:125-161 | A spectrum with conjugate symmetry has real inverse sums |
| RealFft.RealTransform.constructor | SUBS/cap_fftr.c:28-67 | The tables set up are those of the half-length transform and of the real split |
| RealFft.RealTransform.Transform | SUBS/cap_fftr.c:69-123 | The first m+1 cells become the naive Fourier sums of the real samples; later cells keep their values |
| RealFft.RealTransform.Restore | SUBS/cap_fftr.c:125-161 | The time samples become the inverse Fourier sums of the Hermitian extension of the m+1 bins given |
| Convolution.EvalCircConv | BLOCKS/fconv.c:278-286 | The circular-convolution theorem: at every root of unity of the length, the value of the circular convolution is the product of the values |
| Convolution.CircConvIsFir | BLOCKS/fconv.c:290-296 | Past the first taps the circular convolution of a block is the direct one |
| FastConvolution.MultiplySpectra | SUBS/cmultfftcap.c:36-53 | The product is taken at bins 0 to npoints-2 and at no other, bin 0 part by part |
| FastConvolution.BlockIsCircular | BLOCKS/fconv.c:278-286 | Transform, the product as coded and transform back amount to n times the circular convolution with the taps actually applied |
| FastConvolution.AppliedExactly | SUBS/cmultfftcap.c:43-51 | The taps applied are the taps given exactly when the two bins the product skips are one |
| FastConvolution.OverlapSaveIsFir | BLOCKS/fconv.c:271-300 | With the right taps every sample of the overlap-save stream is the direct convolution sum, for an arbitrary history in front of the stream |
| FastConvolution.FastIsDirectExactly | BLOCKS/fconv.c:271-300 | The overlap-save stream is a prefix of the direct convolution for every input if and only if the skipped bins of the response are one |
| FastConvolution.GainTwoFails | BLOCKS/fconv.c:285-285 | A plain gain of two is a response for which some input comes out wrong |
| FastConvolution.ProbeShowsTap | BLOCKS/fconv.c:290-296 | An impulse at the right place makes any chosen tap visible in the output |
| FastConvolution.UserInit | BLOCKS/fconv.c:224-257 | Status 1 when the response is not shorter than the transform, 4 when it is short in the file, else a block ready with that response |
| FastConvolution.FConv.Filter | BLOCKS/fconv.c:278-286 | The work array times norm becomes the circular convolution of its old contents with the applied taps |
| FastConvolution.FConv.Block | BLOCKS/fconv.c:274-300 | A full buffer puts out the tail of that convolution and starts again with its own last samples |
| FastConvolution.FConv.MainCode | BLOCKS/fconv.c:271-301 | Over any visits what is put out continues the overlap-save stream of all samples seen; a refusal leaves a proper prefix |
| FastConvolution.Convolve.Shift | BLOCKS/convolve.c:252-257 | The delay line holds the last samples, newest first |
| FastConvolution.Convolve.InnerProduct | BLOCKS/convolve.c:261-264 | The loop computes the direct convolution sum at the newest sample |
| FastConvolution.Convolve.MainCode | BLOCKS/convolve.c:248-273 | Output j of the run is the direct convolution at sample j |
| Inventory.Chosen | BLOCKS/inventory.c:330-338 | The earliest slot below the horizon, the lowest number among equals, none only if all lie beyond it |
| Inventory.ClockMonotone | BLOCKS/inventory.c:333-353 | The clock never runs back and never passes the report |
| Inventory.RunScheduled | BLOCKS/inventory.c:274-292 | In every reachable state no slot lies before the clock, the next evaluation is at most one month away, and the list is never empty |
| Inventory.LevelBounded | BLOCKS/inventory.c:393-455 | With lags of at most one month an order is due no later than the next evaluation and the stock never exceeds the larger of its first value and the order-up-to level |
| Inventory.NoOrderFoundExactly | BLOCKS/inventory.c:401-455 | No evaluation of any run, ordering or not, finds an order outstanding exactly when lags are at most one month or the run is at most one month long |
| Inventory.OneOrderExactly | BLOCKS/inventory.c:416-455 | An outstanding order is never overwritten, in any run, exactly when lags are at most one month or the run is at most one month long |
| Inventory.BooksBalance | BLOCKS/inventory.c:370-382 | Each area is the sum of stock above zero, or below zero, times elapsed time, and the cost is set-up times orders plus unit cost times amounts |
| Inventory.StockBalancesExactly | BLOCKS/inventory.c:393-425 | Stock equals first stock plus arrivals less demands at every point of a run exactly when every demand served is whole |
| Inventory.OrdersUpToS | BLOCKS/inventory.c:393-456 | The order-up-to rule: from the first order on, in every reachable state with whole demands, stock and the order outstanding add up to S less what was asked for since the last order |
| Inventory.ArrivalFillsUp | BLOCKS/inventory.c:393-442 | An order that arrives before any further demand fills the stock up to S |
| Inventory.EvaluationCosts | BLOCKS/inventory.c:436-444 | An evaluation costs nothing with s or more in stock, else the set-up and the unit price of what is missing to S |
| Inventory.Timetable | BLOCKS/inventory.c:416-455 | In every reachable state the next demand is due after the sum of the intervals given with the demands served, the next evaluation at the month of its number, and an outstanding order its own lag after the evaluation that placed it |
| Inventory.EventTimes | BLOCKS/inventory.c:330-353 | Every event of every run happens at exactly that time, the report at the last month |
| Inventory.ShownExactly | BLOCKS/inventory.c:458-490 | Until the report every sample puts out one pair: the time of its event and, as chosen, its own demand or first stock plus arrivals less demands |
| Inventory.ReportReached | BLOCKS/inventory.c:274-292 | With intervals of at least d there are at most M/d+1 demands, M evaluations and M arrivals, after which the report has come |
| Inventory.ReportAbsorbs | BLOCKS/inventory.c:427-431 | After the report every further sample is a report and changes nothing |
| Inventory.ReportIsLast | BLOCKS/inventory.c:427-431 | No continuation of a run changes the state reached at the report |
| Inventory.Simulator.Select | BLOCKS/inventory.c:330-338 | The selection loop finds the chosen event and its time |
| Inventory.Simulator.Handle | BLOCKS/inventory.c:388-457 | Each handler's new state is the specified one |
| Inventory.Simulator.Process | BLOCKS/inventory.c:319-457 | One sample makes exactly the specified step |
| Inventory.Simulator.MainCode | BLOCKS/inventory.c:307-490 | A visit ends at the end of input, at a report or at a refusal; the state is the run over the samples used, the outputs are those of its events, and after a refusal only the last event lacks its value and possibly its time |
| SnrSetting.DetectedFrom | BLOCKS/cxsetsnr.c:320-375 | Once past silence the detector holds a loud window of non-zero samples followed by every input sample after it, none missing |
| SnrSetting.PowerOfParts | BLOCKS/cxsetsnr.c:342-349 | The power of a window is the inner product of its real parts with themselves plus that of its imaginary parts |
| SnrSetting.TurnedAlike | BLOCKS/cxsetsnr.c:311-375 | Turning every input sample by one angle turns what is held by that angle and changes nothing else: the same sample triggers and as many are kept |
| SnrSetting.ToneDetectedExactly | BLOCKS/cxsetsnr.c:311-375 | A steady complex value is detected exactly when it is not zero, its squared size is above the threshold and a window of it has been read |
| SnrSetting.KeptInOrder | BLOCKS/cxsetsnr.c:320-375 | Once detected, samples are only added, in order; the detector never goes back to silence |
| SnrSetting.Backlog | BLOCKS/cxsetsnr.c:377-541 | What is kept but not yet released is less than a preamble and a window |
| SnrSetting.RunOutputIs | BLOCKS/cxsetsnr.c:306-542 | The whole output is the zeros of the silence followed by a prefix of the kept samples, each with the noise of its window |
| SnrSetting.ReleasedWithNoise | BLOCKS/cxsetsnr.c:452-466 | What release i adds to sample i of those kept is unit noise i times the deviation of its window, and nothing else |
| SnrSetting.RatioExactly | BLOCKS/cxsetsnr.c:342-361 | The ratio asked for: with a true square root, the squared size of the noise added to a released sample, times the ratio, is the mean power of its window times that of the unit noise drawn |
| SnrSetting.PreambleWritesExactly | BLOCKS/cxsetsnr.c:277-337 | With the counters as coded, for every window no longer than the preamble: every write to the preamble buffer is inside it in every run if and only if the window is shorter |
| SnrSetting.CountBounded | BLOCKS/cxsetsnr.c:320-337 | With a shorter window the write index starts at the size of the window and stays below that of the preamble while the preamble is being collected |
| SnrSetting.EqualSizesRunAway | BLOCKS/cxsetsnr.c:273-337 | With equal sizes there is a run after which every further sample is written one place further out and the state never turns |
| SnrSetting.CxSetSnr.CountersAgree | BLOCKS/cxsetsnr.c:277-424 | In every reachable state of the block its mode, window, write index and held-preamble flag are those of the counters |
| SnrSetting.CxSetSnr.Listen | BLOCKS/cxsetsnr.c:320-375 | A sample in silence fills the window, which is tested when full and copied on detection |
| SnrSetting.CxSetSnr.Collect | BLOCKS/cxsetsnr.c:322-337 | A sample in the preamble state is stored and the state turns when the buffer is full |
| SnrSetting.CxSetSnr.SetLevel | BLOCKS/cxsetsnr.c:342-361 | A full window sets the deviation of its own noise |
| SnrSetting.CxSetSnr.Dump | BLOCKS/cxsetsnr.c:403-540 | The held preamble, then the full window, are put out with noise, each once; a run broken off leaves part of that, and after an exhausted generator in the window possibly one opened cell |
| SnrSetting.CxSetSnr.ReleaseWindow | BLOCKS/cxsetsnr.c:470-534 | Every cell is asked for before its noise is drawn: status 2 leaves one opened, unwritten cell behind what was put out, 99 leaves none |
| SnrSetting.CxSetSnr.Process | BLOCKS/cxsetsnr.c:309-547 | One sample makes the specified step and puts out the specified samples |
| SnrSetting.CxSetSnr.MainCode | BLOCKS/cxsetsnr.c:305-553 | Over any visits the output is that of all samples seen |
| Lattice.ExactEnergy | BLOCKS/fxnl.c:294-301 | With exact rotations one pass keeps the energy of the state and the input |
| Lattice.PassEnergy | BLOCKS/fxnl.c:294-301 | One pass of the integer code with floor shifts raises the norm by at most 3/2 per section |
| Lattice.PassBound | BLOCKS/fxnl.c:294-301 | From norm R the next state is within R plus the input magnitude plus 3n/2 |
| Lattice.RunBound | BLOCKS/fxnl.c:278-301 | Over any run from rest the norm is at most the input magnitudes plus 3n/2 per sample |
| Lattice.BudgetIs | BLOCKS/fxnl.c:278-301 | That budget is the sum of the magnitudes plus 3n/2 times the number of samples |
| Lattice.StoredPair | BLOCKS/fxnl.c:228-236 | A coefficient pair as read, scaled and truncated, never exceeds the scale |
| Lattice.StoredNear | BLOCKS/fxnl.c:228-236 | A coefficient is stored in units of the scale, never larger in size and less than one smaller |
| LatticeForm.StoredUnits | BLOCKS/fxnl.c:228-236 | A coefficient of zero is stored as zero and one of one as the scale, so a section that does not turn is stored exactly |
| Lattice.QuantiserExactly | BLOCKS/fxnl.c:286-286 | Casting the sample before scaling it gives the scaled and truncated sample, for every sample, if and only if the number of levels divides twice the range |
| Lattice.FirstStepVanishes | BLOCKS/fxnl.c:286-286 | Where it does not divide, the sample worth exactly one step is read as zero |
| Lattice.SmallInputsVanish | BLOCKS/fxnl.c:286-286 | For every number of levels and every range a sample below one in magnitude is read as zero |
| LatticeForm.DirectForm | BLOCKS/fxnl.c:294-301 | With exact rotations the first cell obeys the all-pole difference equation of the polynomial that the step-up recursion makes of the reflection coefficients, driven by the input, and cell i holds the mirror image of the i-th polynomial applied to it |
| LatticeForm.PassTracks | BLOCKS/fxnl.c:294-301 | From nearby states one integer pass stays within 3/2 per section of the pass with exact arithmetic |
| LatticeForm.StateTracks | BLOCKS/fxnl.c:278-301 | After m samples the integer state is within 3/2 per section and sample of the exact lattice with the stored coefficients |
| LatticeForm.OutputTracks | BLOCKS/fxnl.c:302-314 | Every sample put out is a whole number of steps, scaled, that differs from the weighted sum of the exact lattice by less than one and by the length of the weights times that bound |
| LatticeForm.DelaysExactly | BLOCKS/fxnl.c:294-314 | With sections that do not turn and the weight on cell j, output t is the quantised sample j places back, in steps |
| LatticeForm.RequantisedExactly | BLOCKS/fxnl.c:286-314 | A whole number of steps put out is read as that number |
| LatticeForm.PassesSamples | BLOCKS/fxnl.c:278-314 | Samples in, samples out: with such sections, equal scale and norm and levels that divide twice the range, every output is the input j samples before to less than one step |
| Lattice.Fxnl.constructor | BLOCKS/fxnl.c:219-242 | The filter read satisfies the invariant, with every coefficient scaled and truncated and the state at rest |
| Lattice.Fxnl.RunSections | BLOCKS/fxnl.c:294-301 | The descending in-place loop computes the recursive pass |
| Lattice.Fxnl.StateWithinBudget | BLOCKS/fxnl.c:278-301 | Every reachable state of the block is within the budget of its inputs |
| Lattice.Fxnl.MainCode | BLOCKS/fxnl.c:278-320 | Over any visits each sample is quantised, passed and answered with the weighted sum of the state it leaves |
| Vectors.DistanceMoved | BLOCKS/lms.c:268-268 | Moving a vector along another changes its squared distance to any third by a quadratic in the step |
| Lms.StepContracts | BLOCKS/lms.c:251-268 | For every state, target and disturbance one step changes the squared weight error by exactly -mu e^2 (2 - mu p) + 2 mu e v, where e is the error, p the power in the delay line and v the disturbance |
| Lms.NeverGrowsExactly | BLOCKS/lms.c:251-268 | Without disturbance the weight error does not grow in a step if and only if the error is zero or mu (2 - mu p) is not negative |
| Lms.SafeStepExactly | BLOCKS/lms.c:245-268 | For inputs of at most size b without disturbance, no step of any run lets the weight error grow if and only if mu lies between zero and two over the power of a full line |
| Lms.RunBalance | BLOCKS/lms.c:245-268 | The balance of the weight error over any run, for every target, step size and input |
| Lms.RunContracts | BLOCKS/lms.c:245-268 | Under 0 <= mu p <= 2 the error never grows and all that is taken off it is at most the squared size of the target |
| Lms.FewLargeErrors | BLOCKS/lms.c:245-268 | However long the run, the number of errors above a bound is limited by the size of the target |
| Lms.PredictsFromSignal | BLOCKS/lms.c:251-275 | The prediction is the response of the weights learnt so far to the signal, whatever response is desired of this sample; the error is what that holds beyond it |
| Lms.LockedOn | BLOCKS/lms.c:251-275 | Once the weights are those of the filter behind the desired response they stay, predictions repeat that response and errors are zero for every later pair |
| Lms.LmsFilter.Adapt | BLOCKS/lms.c:268-268 | The update loop moves every weight by mu x e |
| Lms.LmsFilter.Process | BLOCKS/lms.c:246-268 | One pair of samples is shifted in, predicted with the weights before it and learnt from |
| Lms.LmsFilter.MainCode | BLOCKS/lms.c:245-277 | As many pairs as both inputs hold are answered in order, by prediction or error as the flag says |
| Lms.LmsFilter.StateBalance | BLOCKS/lms.c:245-268 | The balance holds of the weights in every reachable state of the block |
| Correlator.InnerReversed | BLOCKS/cxcorr.c:241-245 | Reversing both sequences leaves the complex inner product unchanged |
| Correlator.ReversedTaps | BLOCKS/cxcorr.c:241-280 | The sum over the reversed taps is the window, oldest first, against the conjugated taps as read |
| Correlator.CauchySchwarz | BLOCKS/cxcorr.c:275-280 | The squared output is at most the product of the energies |
| Correlator.PeakExactly | BLOCKS/cxcorr.c:275-280 | Among windows of at most the energy of the taps, only the taps themselves reach the peak value |
| Correlator.OutputBounded | BLOCKS/cxcorr.c:262-294 | Every output is within the bound, and is exactly the energy of the taps when the window equals them |
| Correlator.PhaseShown | BLOCKS/cxcorr.c:275-284 | A window that is the taps times a complex number answers with that number times their energy, and scaling a run by it scales every output |
| Correlator.CxCorr.ReverseTaps | BLOCKS/cxcorr.c:241-245 | The swap loop reverses the taps in place |
| Correlator.CxCorr.InnerProduct | BLOCKS/cxcorr.c:275-284 | The accumulating loop computes the correlation at the newest sample |
| Correlator.CxCorr.MainCode | BLOCKS/cxcorr.c:262-294 | Output t of the run is the correlation of the window that ends with sample t |
| Cascade.OrderDoesNotMatter | BLOCKS/iirfil.c:386-417 | Exchanging any two neighbouring sections leaves every output sample of every input unchanged |
| Cascade.SwappedOutputs | BLOCKS/iirfil.c:386-417 | So everything the block puts out stays the same |
| Cascade.SectionsCommute | BLOCKS/iirfil.c:386-409 | Two sections in either order answer any signal alike |
| Cascade.UniqueAt | BLOCKS/iirfil.c:405-405 | A section's recurrence, started from zero, has one solution |
| Cascade.LastSection | BLOCKS/iirfil.c:405-415 | The output times the norm is what the last section makes of the output, times the norm, of the sections before it, or of the input |
| Cascade.OneSection | BLOCKS/iirfil.c:388-416 | With one section the samples in and out satisfy its difference equation, the output times the norm |
| Cascade.HistoryFitsExactly | BLOCKS/iirfil.c:401-408 | Every cell of the history vector that the loop fetches or stores lies inside its 20 exactly when there are at most seven sections |
| Cascade.IirFil.LoadInput | BLOCKS/iirfil.c:389-399 | The section's input vector holds the three newest samples of the signal before it, zeros before the start |
| Cascade.IirFil.RunSection | BLOCKS/iirfil.c:401-408 | A section fetches its two old answers, computes the new one and stores both back; no other history changes |
| Cascade.IirFil.Process | BLOCKS/iirfil.c:388-415 | With one shared pair of vectors the loop computes the composed recurrences of all sections |
| Cascade.IirFil.MainCode | BLOCKS/iirfil.c:386-419 | Over any visits output n is the cascade's answer at sample n |
| Decimation.NormIsSumExactly | BLOCKS/decimate.c:225-255 | The norm is the sum of the weights left, for the plain windows always and for the parabola exactly for odd lengths other than three (or none) |
| Decimation.ParabolicWindow | BLOCKS/decimate.c:230-238 | The odd parabolic window is symmetric, zero at the ends and strictly rising to the centre |
| Decimation.ParabolicBends | BLOCKS/decimate.c:230-238 | Its weights start 0, 1, bend up by one in the first third and down by two from there to the centre, which determines them |
| Decimation.TriangularExactly | BLOCKS/decimate.c:239-244 | The triangular window rises by one to its middle and falls by one after it exactly when its length is even (or at most one) |
| Decimation.UnityGainExactly | BLOCKS/decimate.c:282-292 | A settled constant comes out unchanged, for every constant, exactly when the norm is the sum of the weights |
| Decimation.WindowPassesConstantsExactly | BLOCKS/decimate.c:225-292 | The windows of the block that pass constants |
| Decimation.DecimatedAt | BLOCKS/decimate.c:269-294 | Output j of the run is the weighted mean of the samples up to number (j+1) idec, and there are as many as whole groups of idec samples |
| Decimation.ImpulseShowsWeight | BLOCKS/decimate.c:273-292 | Weight j over the norm is what a sample counts for j samples later, and only its whole part counts |
| Decimation.UserInit | BLOCKS/decimate.c:213-256 | The block is set up with the weights and norm of the window, status 2 for an unknown one |
| Decimation.Decimate.FillWeights | BLOCKS/decimate.c:225-255 | The weight loop with its mirrored writes leaves the specified weights and norm; status 2 for an unknown window |
| Decimation.Decimate.Process | BLOCKS/decimate.c:269-294 | One sample moves the line and the counter and at every idec-th puts out the weighted mean |
| Decimation.Decimate.MainCode | BLOCKS/decimate.c:269-296 | Over any visits one mean for every idec samples, in order |
| BitSource.LowSteps | BLOCKS/bdata.c:218-222 | The low eleven bits of the 32-bit register step on their own and decide the bit put out |
| BitSource.StepInverts | BLOCKS/bdata.c:218-219 | The step of the register is a bijection |
| BitSource.EveryBit | BLOCKS/bdata.c:218-222 | Every bit, from the first one on, is one plus the bits eleven and four places before it modulo 2, the seed standing for those before the start |
| BitSource.SampleRecurrence | BLOCKS/bdata.c:218-222 | The samples put out are zero or one and obey that law as numbers |
| BitSource.PeriodExactly | BLOCKS/bdata.c:218-219 | A state comes back after n steps if and only if n is a multiple of its period, which is 1, 3, 511 or 1533 by the state alone |
| BitSource.CyclesExactly | BLOCKS/bdata.c:218-219 | Which states return after 1, 3 and 511 steps, that all return after 1533, and that a state with an even parity returns only after a multiple of three |
| BitSource.OddPeriod | BLOCKS/bdata.c:218-219 | A state with both parities odd, other than all ones, returns only after a multiple of 511 steps |
| BitSource.Period1533 | BLOCKS/bdata.c:218-219 | Every state returns after 1533 steps |
| BitSource.BitsRepeat | BLOCKS/bdata.c:218-222 | The bits of every seed repeat with the period of the seed from the first one on |
| BitSource.BData.constructor | BLOCKS/bdata.c:171-185 | Target, pace and register as the parameters give them |
| BitSource.RequestedNear | BLOCKS/bdata.c:202-203 | What is requested is the first batch and the rate times the number received, to the nearest whole number |
| BitSource.RequestedWhole | BLOCKS/bdata.c:202-203 | With a whole rate it is exactly that many for each sample received |
| BitSource.TargetIs | BLOCKS/bdata.c:202-205 | The target is the smaller of that and the number asked for in all, if that is positive |
| BitSource.BData.Pace | BLOCKS/bdata.c:198-208 | The pacing input is counted and sets the target from the second visit on |
| BitSource.BData.Emit | BLOCKS/bdata.c:225-243 | The held bit goes first, then the new one, which is held if refused; a second refusal is an error |
| BitSource.BData.Advance | BLOCKS/bdata.c:217-244 | One step of the register adds the next bit to what is out and held |
| BitSource.BData.MainCode | BLOCKS/bdata.c:198-246 | Under any refusals the bits out and the bit held are the first bits of the stream, never more than asked for, and a visit stops only for its target, its quota or a refusal |
| MarkerSplit.EveryBitInPlace | BLOCKS/bitvec.c:212-215 | Bit i of byte k is bit 8k+i of the input |
| MarkerSplit.SamplesInPlace | BLOCKS/bitvec.c:212-215 | For samples that are zero or one, bit i of byte k is set exactly when sample 8k+i is one |
| MarkerSplit.NothingLost | BLOCKS/bitvec.c:223-265 | Vectors and pending bytes together are all bytes, in order |
| MarkerSplit.CutsExactly | BLOCKS/bitvec.c:237-270 | A vector ends after byte k exactly when byte k-1 is 0xff and byte k is not zero |
| MarkerSplit.CutsAtMarkers | BLOCKS/bitvec.c:237-270 | The vectors end exactly behind the bytes that follow 0xff and are not zero |
| MarkerSplit.BitVec.Append | BLOCKS/bitvec.c:216-236 | Every byte is stored inside the allocated chunk, which grows by sixteen |
| MarkerSplit.BitVec.TakeByte | BLOCKS/bitvec.c:216-272 | The flag logic cuts exactly where the rule says |
| MarkerSplit.BitVec.Build | BLOCKS/bitvec.c:212-215 | Bits are assembled lowest first |
| MarkerSplit.BitVec.MainCode | BLOCKS/bitvec.c:207-275 | Over any visits vectors out and buffer kept are the split of all bytes |
| MarkerSplit.BitVec.StreamKept | BLOCKS/bitvec.c:207-275 | In every reachable state the output joined with the buffer is the byte stream |
| LineCode.BitsReadBack | BLOCKS/linecode.c:229-254 | For all four codes the bits can be read back from the code values |
| LineCode.Levels | BLOCKS/linecode.c:229-254 | Plain code values are one above or below zero, 2B1Q values the four levels two apart around zero in the order of the pairs with the second bit first |
| LineCode.NearestLevel | BLOCKS/linecode.c:235-251 | A sample counts as high when it is nearer to one than to zero |
| LineCode.MarksAlternate | BLOCKS/linecode.c:239-247 | The marks of the alternating code alternate in sign, the first one positive |
| LineCode.PulseCarries | BLOCKS/linecode.c:189-207 | The samples of a symbol carry its value at once, or for biphase in two opposite halves that add up to nothing, the first one negative |
| LineCode.UserInit | BLOCKS/linecode.c:185-214 | The pulse of the code is set up; status 1 for biphase with an odd length, 2 for an unknown code |
| LineCode.LineCoder.Form | BLOCKS/linecode.c:229-254 | The value formed from the newest sample is the specified one, parity and sign kept |
| LineCode.LineCoder.Drain | BLOCKS/linecode.c:256-265 | The rest of the interrupted symbol is put out whole, or the run ends |
| LineCode.LineCoder.Send | BLOCKS/linecode.c:255-275 | A symbol adds exactly its samples to what is out and what waits |
| LineCode.LineCoder.MainCode | BLOCKS/linecode.c:227-285 | Under any refusals the samples out and the saved rest are all samples of all symbols formed |
| Encoder.DifferentialRoundTrip | BLOCKS/encoder.c:265-322 | Every bit sequence is recovered by comparing each first half with the sample before it |
| Encoder.PolarityFree | BLOCKS/encoder.c:265-322 | On the inverted line every bit but the first is read as before, and the first exactly when the reference is inverted |
| Encoder.DifferentialLine | BLOCKS/encoder.c:265-322 | The running sum stays within one and no level lasts more than two samples |
| Encoder.AmiLine | BLOCKS/encoder.c:349-361 | The running sum is zero or minus one, and a sample is non-zero exactly for a one |
| Encoder.NrzRoundTrip | BLOCKS/encoder.c:229-238 | A sample is one above or one below zero exactly as its bit says |
| Encoder.TwoHalvesRoundTrip | BLOCKS/encoder.c:239-264 | The second half of a symbol is one above or below zero as its bit says, the first its opposite for Manchester and zero for return-to-zero |
| Encoder.PairsRoundTrip | BLOCKS/encoder.c:362-383 | Pairs take four levels two apart around zero in their order as binary numbers, and both bits are read back |
| Encoder.NearestBit | BLOCKS/encoder.c:223-226 | A sample is read as the nearer of zero and one, and as zero half-way |
| Encoder.BitEncoder.Emit | BLOCKS/encoder.c:228-411 | The branch of each code puts out the specified samples |
| Encoder.BitEncoder.MainCode | BLOCKS/encoder.c:214-413 | Over any visits the output is the encoding of all bits taken; a single last bit of a pair waits |
| FramePacking.BuiltBits | BLOCKS/bitmanip.c:323-347 | The first of m bits ends up at place m-1 of the byte built |
| FramePacking.BinarySamples | BLOCKS/bitmanip.c:323-324 | Samples that are zero or one are read as the bits they stand for |
| FramePacking.ReissuedBit | BLOCKS/bitmanip.c:329-372 | What comes out at each place of a frame, whole bytes and short last byte |
| FramePacking.FrameIntactExactly | BLOCKS/bitmanip.c:329-372 | Every frame of n bits comes back unchanged exactly when n is a multiple of eight |
| FramePacking.BitManip.Collect | BLOCKS/bitmanip.c:323-347 | One bit goes into the frame, every byte inside the queue; the last completes it |
| FramePacking.BitManip.EmitFrame | BLOCKS/bitmanip.c:350-388 | The frame is put out whole and the collection starts again |
| FramePacking.BitManip.MainCode | BLOCKS/bitmanip.c:317-391 | At most one frame a visit, put out whole; with a length in whole bytes the bits out and collected are all the bits in |
| Tiling.CompleteExactly | BLOCKS/imgbreakup.c:248-274 | An image is broken up completely exactly when it is not empty and the tile sizes divide its own |
| Tiling.SubMatrix | SUBS/dsp_matrix.c:558-599 | A tile exists exactly when it does not reach past the edge, has the size asked for, and its pixels are those of the image at the offset |
| Tiling.TilesInOrder | BLOCKS/imgbreakup.c:248-274 | The tiles come along the rows and then down: tile k of an image A tiles wide is the one in column k % A and row k / A |
| Tiling.TilePlaced | BLOCKS/imgbuild.c:251-258 | Adding the tile cut at an offset puts each of its pixels on the canvas once and no other |
| Tiling.OverlapsAdd | BLOCKS/imgbuild.c:251-258 | Tiles that overlap add up pixel by pixel, in either order |
| Tiling.RestRebuilds | BLOCKS/imgbuild.c:226-300 | From any point of an image the remaining tiles complete the canvas and put the image out |
| Tiling.RoundTrip | BLOCKS/imgbuild.c:226-300 | A stream of images of a size the tiles divide comes back image by image |
| Tiling.ImgBreakup.BreakImage | BLOCKS/imgbreakup.c:238-274 | The loop puts out the tiles along the rows and down, or stops with 4 at the edge |
| Tiling.ImgBreakup.MainCode | BLOCKS/imgbreakup.c:230-277 | The tiles of every image in order, until one does not divide |
| Tiling.ImgBuild.Place | BLOCKS/imgbuild.c:251-258 | The double loop adds the tile to the matrix in place and skips what lies outside |
| Tiling.ImgBuild.TakeTile | BLOCKS/imgbuild.c:226-300 | One tile makes the specified progress and puts out a completed canvas |
| Tiling.ImgBuild.MainCode | BLOCKS/imgbuild.c:226-303 | Over any visits the canvases put out are those the tiles complete |
| EigenSort.Largest | SUBS/eigsrt.c:11-13 | The last position of the largest remaining value |
| EigenSort.Exchange | SUBS/eigsrt.c:15-21 | Two values and their columns change places and nothing else does |
| EigenSort.StillEigenPairs | SUBS/eigsrt.c:10-23 | Pairs that were eigenpairs of a matrix are so after any rearrangement |
| EigenSort.Eigsrt | SUBS/eigsrt.c:10-23 | The values end in descending order with the same pairs, so an eigensystem of any matrix is one still |
| DelayLine.ShiftIn | BLOCKS/convolve.c:252-257 | The shift loop of every filter block: each cell moves one place and the newest sample goes first |
| Arith.ReadsNear | BLOCKS/bitvec.c:212-212 | A sample is read as a positive whole number exactly when it is at most a thousandth below it and no more than 0.999 above |

## Left out

- Floating point: rounding, overflow and not-a-number are not modelled; every float is an exact real. The integers of fxnl, inventory and decimate are unbounded; the shift register of bdata is a 32-bit word and the bytes of bitvec and bitmanip are machine words.
- Sines and cosines: twiddle factors are powers of a primitive root of unity w, for which only `Root(w, e, q)` is assumed; the phase computations of SUBS/cap_fft.c:339-347 and SUBS/cap_fftr.c:59-65 become these powers, and the square root of SUBS/cap_fft.c:298 an exact integer root.
- kf_bfly3, kf_bfly5 and kf_bfly_generic of SUBS/cap_fft.c: fconv only asks for lengths that are powers of two, for which `Fft.Factor` proves that no such stage arises.
- Fft.Work: the strided source is a sequence and the result an array; the in-place call of cap_fft, which first copies through a temporary, is modelled by that copy.
- Random numbers: the unit noise of cxsetsnr is an arbitrary function of the release number that may give up (status 2), and the delivery lag of inventory an arbitrary value between the two limits; their distributions are not modelled. The power of ten behind the ratio of cxsetsnr is any positive number and its square root any function, which only `RatioExactly` takes to be a true root.
- The kernel's buffer memory: cells, segments and growth are reduced to "granted" or "refused"; allocation failures inside blocks are left out. iirfil, linecode and the samples x(1), x(2) rely on the kernel keeping the last samples read; linecode asks for that (BLOCKS/linecode.c:165), iirfil does not, and the input buffer of the model always keeps them.
- Files, parameter tables, printing and the connection checks of SYSTEM_INIT: coefficients, responses and taps are arguments of the constructors.
- FastConvolution.FConv.MainCode: on a refused cell (99) the samples of the interrupted block are only known to be a proper prefix of it; likewise for encoder, imgbreakup, bitmanip and cxsetsnr. Where the noise generator of cxsetsnr gives up inside a window, one opened cell stands behind that prefix.
- bdata with more than one output buffer, and the second output of linecode: on a refusal the source gives up on the later buffers of that sample, so nothing is claimed for them.
- The integer-buffer mode of fxnl (the sample read is never used) and the partial-response code of encoder (its last bit is not kept between visits).
- Zero divisors: a norm of zero in iirfil, fxnl or decimate, a quantiser range of zero in fxnl and an empty window in cxsetsnr divide by zero in the source, which yields infinities there; they are excluded.
- Inventory.LevelBounded: like the other run theorems of the simulator it speaks of parameters and samples that make sense (0 <= minLag <= maxLag, s <= S, intervals and demands not negative); the step and visit contracts do not.
- inventory with several input buffers: only the last one read is used, so one is modelled.
- linecode with zero samples per symbol and bitmanip with a frame length below one: the source writes outside its buffers at once; both are excluded.
- imgbreakup with tile sizes below one: its offsets never reach the edge; excluded.
- hilbert, casfil and filtnyq repeat the loops of fconv and iirfil; the other blocks of the library are one-line arithmetic, fan-out, conversion and image input or output and would only add easy members.
