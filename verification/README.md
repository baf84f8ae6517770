# tinysr front end in Dafny

This project models the signal-processing core of tinysr, a tiny isolated-word
speech recognizer that follows the ETSI ES 201 108 front end. Four sources are
modelled:

- **C library.** `tinysr.c` with `tinysr.h`:
  - offset compensation of each input sample (section 4.2.3 of ES 201 108);
  - a 400-sample ring buffer that fires a frame every 160 samples (section 4.2.4);
  - per frame: energy, pre-emphasis, Hamming window, zero padding to 512 and the
    magnitude of a recursive decimation-in-time FFT, guarded by a power-of-two check
    (sections 4.2.5 to 4.2.8).
- **Python port.** `pytinysr/tinysr.py`:
  - decodes little-endian 16-bit audio and can downmix stereo;
  - resamples to 16 kHz by linear interpolation, then applies offset compensation
    (the model runs the corrected resampler; see the third Findings row);
  - cuts non-overlapping 400-sample frames;
  - per frame: a feature vector with the log energy, a 23-band mel filter bank (the
    model's context runs the corrected triangular filters; see the second Findings
    row), a cosine transform of the 23 log energies to 13 coefficients and a running
    noise-floor estimate;
  - collects the feature vectors into one-shot utterances.
- **Model generator.** `scripts/model_gen.py`:
  - parses an utterance file of comma-separated feature vectors;
  - builds a multivariate Gaussian: mean, covariance, inverse, log-likelihood constant
    and log-likelihood.
- **Resampler.** `playground/resample.py`: an offline linear-interpolation resampler.

Arithmetic is over `real`. The transcendental functions are given inputs:
- the FFT twiddle factors, square root, logarithm, Hamming and DCT cosines, in `Dsp.Numerics`;
- matrix inverse, determinant and logarithm, in `ModelGen.LinearAlgebra`;
- string-to-float conversion, as a `toFloat` parameter.

Python exceptions become the `Failure` case of a `Result`.

Code that changes state step by step is modelled imperatively:
- C arrays are `array<real>`, and the C context is a class whose methods update its
  fields.
- The Python context is a class with `seq` fields.

Each method is proved against a specification function. The C context records three
ghost histories:
- every input sample;
- the offset-compensated stream;
- every spectrum produced.

`FeedInput` proves that the spectra are exactly the FFT magnitudes of the frames at
160-sample shifts of the compensated stream.

The Python context keeps ghost copies of:
- the resampled stream;
- the compensated stream;
- the frames handed to `process_frame`.

`FeedInput` proves that the pending feature vectors, together with those already
moved into utterances, account for every frame exactly once.

The model follows the code, with two exceptions: the Python context runs the
corrected resampler and the corrected filter bank of the second and third Findings
rows, whose as-written behaviour is modelled and proved separately. Points where
the code departs from ES 201 108, or the two front ends differ, are kept as written:
- **Pre-emphasis.** ES 201 108 leaves the first sample of a frame open. C zeroes it
  (`tinysr.c:85`); Python keeps it.
- **Log energy.** C adds 2e-22 to the energy before its logarithm, a departure from
  section 4.2.5 of ES 201 108; Python does not.
- **Single-vector cluster.** The covariance of a one-vector cluster is the zero
  matrix (`ModelGen.SingleVectorCovariance`).

## Model

| member | source | states |
|---|---|---|
| Dsp.OffsetCompStep | tinysr.c:47 | an input equal to the previous input gives 0.999 times the previous output |
| Dsp.OffsetCompensated | tinysr.c:43-49 | the whole output of the filter started at rest when fed xs in order, one output per input; OffsetCompensatedAt and OffsetCompensatedAppend characterise it |
| Dsp.OffsetCompensatedAt | tinysr.c:45-49 | output i of the filter started at rest is x[i] - x[i-1] + 0.999 y[i-1], with x[-1] = y[-1] = 0 |
| Dsp.OffsetCompensatedAppend | tinysr.c:43-49 | feeding one more sample extends the compensated stream by one filter step on the last input and output |
| Dsp.ConstantInputDecays | tinysr.c:47 | a constant (pure DC) input c gives output 0.999^i c: the offset is removed |
| Dsp.SumSquaresNonNegative | tinysr.c:77-79 | the frame energy is never negative |
| Dsp.SumSquaresZero | tinysr.c:77-79 | the energy is zero exactly when every sample of the frame is zero |
| Dsp.PreEmphasized | pytinysr/tinysr.py:71-72 | one output per sample: the first kept, every later one minus 0.97 times its unfiltered predecessor; DeEmphasized inverts it (DeEmphasizedUndoesPreEmphasis) |
| Dsp.DeEmphasizedUndoesPreEmphasis | pytinysr/tinysr.py:71-72 | pre-emphasis from unfiltered neighbours, first sample kept, is undone by the de-emphasis filter, so it loses nothing |
| Dsp.LerpBetween | playground/resample.py:18 | interpolation at 0 and 1 gives the two samples; for a fraction in [0, 1] the result lies between them |
| Dsp.ZeroPadded | pytinysr/tinysr.py:75-76 | the padded frame has length n, starts with the frame and is zero after it |
| FastFourier.IsPowerOfTwo | tinysr.c:127 | n is 1, or n is even and n / 2 is a power of two; PowerOfTwoIsPow2 shows this is n = 2^k |
| FastFourier.PowerOfTwoIsPow2 | tinysr.c:127 | IsPowerOfTwo(n) holds exactly when n = 2^k for some k |
| FastFourier.FftLengthIsPowerOfTwo | tinysr.h:11 | FFT_LENGTH = 512 is a power of two, so the guard in abs_fft passes |
| FastFourier.Evens | pytinysr/tinysr.py:10 | `x[::2]`: (n + 1) / 2 elements, element i being x[2i] |
| FastFourier.Odds | pytinysr/tinysr.py:10 | `x[1::2]`: n / 2 elements, element i being x[2i + 1]; with Evens it partitions x (EvensOddsPartition) |
| FastFourier.EvensOddsPartition | pytinysr/tinysr.py:10 | `x[::2]` and `x[1::2]` hold the even- and odd-indexed elements of x |
| FastFourier.Fft | pytinysr/tinysr.py:8-12 | the transform of a power-of-two sequence has its length, and a single element is its own transform |
| FastFourier.Butterflies | pytinysr/tinysr.py:11-12 | 2 |e| outputs: e[k] + tw(k, n) o[k] in the first half and e[k] - tw(k, n) o[k] in the second, n = 2 |e| |
| FastFourier.FftSplits | pytinysr/tinysr.py:10-12 | a transform of length n > 1 is the butterflies of the transforms of the even and odd halves, each of power-of-two length |
| FastFourier.ButterflyAt | pytinysr/tinysr.py:11-12 | output k is e[k] + w(k, n) o[k] and output k + n/2 is e[k] - w(k, n) o[k] |
| FastFourier.FftOfZeros | pytinysr/tinysr.py:8-12 | the transform of zeros is zeros |
| FastFourier.FftOfImpulse | pytinysr/tinysr.py:8-12 | the transform of a unit impulse is all ones, whatever the twiddle factors |
| FastFourier.StridedEvens | tinysr.c:109 | the even half of a strided view is the view at twice the stride |
| FastFourier.StridedOdds | tinysr.c:110 | the odd half of a strided view starts one stride later at twice the stride |
| FastFourier.StridedRealPrefix | tinysr.c:129-134 | with zeroed imaginary parts, the unit-stride view of the buffer is the real frame as complex numbers |
| TinySR.BitAnd | tinysr.c:127 | the C `&` on non-negative integers, bit by bit from the least significant; PowerOfTwoGuard uses it |
| TinySR.PowerOfTwoGuard | tinysr.c:127 | `length > 0 && !(length & (length - 1))` holds exactly when length is a power of two |
| TinySR.FftDit | tinysr.c:98-123 | out[0..length) receives the FFT of the strided input in[start + stride j]; the rest of out is unchanged |
| TinySR.DecimationInTime | tinysr.c:104-110 | the FFT of a strided view is the butterflies of the half-length FFTs at start and start + stride, twice the stride, with both recursive calls in bounds |
| TinySR.ButterflyPair | tinysr.c:118-121 | the four real assignments compute e + w o and e - w o as complex numbers |
| TinySR.Butterfly | tinysr.c:112-122 | the loop writes the butterflies of e and o into out[0..2 half) and nothing beyond |
| TinySR.AbsFft | tinysr.c:126-138 | succeeds exactly for power-of-two lengths, leaving the array untouched otherwise; on success the first length entries become the FFT magnitudes of the real input and the rest is unchanged |
| TinySR.ZeroedArray | tinysr.c:130-132 | a fresh array of the given length holding zeros |
| TinySR.TakeMagnitudes | tinysr.c:136-137 | entry i becomes the modulus of the i-th complex output |
| TinySR.Unrolled | tinysr.c:69-73 | 400 samples: entry i is ring slot (next + i) mod 400, oldest first |
| TinySR.Unroll | tinysr.c:69-73 | the frame is copied out of the ring starting at input_buffer_next, wrapping at 400 |
| TinySR.RingUnrolls | tinysr.c:64-73 | when the ring holds the stream, unrolling at the write slot yields its last 400 samples in order |
| TinySR.RingStep | tinysr.c:51-52 | writing a sample at slot count mod 400 keeps the ring holding the extended stream |
| TinySR.FrameEnergy | tinysr.c:77-79 | the energy is 2e-22 plus the sum of squares, hence positive, so its logarithm exists |
| TinySR.PreEmphasize | tinysr.c:82-85 | the downward loop equals pre-emphasis from unfiltered neighbours, with sample 0 then zeroed |
| TinySR.ApplyWindow | tinysr.c:87-88 | each of the 400 samples is multiplied by its window coefficient; the rest is unchanged |
| TinySR.ZeroPad | tinysr.c:91-92 | the first 512 entries become the frame followed by zeros |
| TinySR.FrameSpectrum | tinysr.c:82-94 | 512 magnitudes of the FFT of the frame pre-emphasised with slot 0 zeroed, Hamming-windowed and zero-padded |
| TinySR.SpectrumInPlace | tinysr.c:82-94 | the buffer ends holding the spectrum of its first 400 samples: pre-emphasis, window, padding, FFT magnitude |
| TinySR.PendingSamples | tinysr.c:54-56 | input_buffer_samps after n samples: n below 400, then 240 + (n - 400) mod 160 |
| TinySR.PendingSamplesStep | tinysr.c:54-56 | the pending count stays below 400; a frame fires exactly when it would reach 400, after which 240 remain |
| TinySR.FrameCount | tinysr.c:54-55 | the number of process_frame calls after n samples: 0 below 400, then 1 + (n - 400) div 160 |
| TinySR.FrameCountStep | tinysr.c:54-56 | each sample adds one frame exactly when it fires one |
| TinySR.Spectra | tinysr.c:43-58 | the spectra of the frames fired while the compensated stream c was fed, in firing order; SpectraCount and SpectraFrame characterise it |
| TinySR.SpectraCount | tinysr.c:43-58 | after n samples the number of frames is FrameCount(n) |
| TinySR.SpectraFrame | tinysr.c:53-73 | frame f is the spectrum of compensated samples 160 f up to 160 f + 400, so frames overlap by 240 |
| TinySR.WritesPastEnd | tinysr.c:91-94 | zero padding writes past the buffer exactly when it holds fewer than FFT_LENGTH floats |
| TinySR.TempBufferOverflowAsWritten | tinysr.c:22 | the buffer as allocated (400 floats) is overrun by 112 floats: every slot the padding loop writes lies outside it |
| TinySR.Context.constructor | tinysr.c:8-33 | a valid context: the Hamming window precomputed, 48000 frames per second, filter at rest, empty histories, a temp buffer of FFT_LENGTH floats |
| TinySR.Context.ProcessFrame | tinysr.c:61-95 | the temp buffer holds the spectrum of the unrolled ring; logE is the log of 2e-22 plus its energy |
| TinySR.Context.Compensate | tinysr.c:45-49 | the filter state follows the input and output histories, each extended by one |
| TinySR.Context.Store | tinysr.c:51-52 | the ring holds the stream extended by the new sample; the spare slots past 400 are untouched |
| TinySR.Context.Fire | tinysr.c:54-56 | the new spectrum is appended, and the spectra are those of the whole compensated stream |
| TinySR.Context.FeedSample | tinysr.c:43-58 | one sample is recorded, and a spectrum is added exactly when a frame fires |
| TinySR.Context.FeedInput | tinysr.c:42-59 | the inputs are extended by the samples; the spectra are those of the offset-compensated input at 160-sample shifts, FrameCount(n) of them |
| TinySR.Context.IndicesInRange | tinysr.c:51-57 | the ring index and the pending count stay in [0, 400) |
| PyTinySR.BinCentersIncrease | pytinysr/tinysr.py:21 | the centres increase strictly from 2 to 256 = FFT_LENGTH / 2, so every filter reads the lower half of the spectrum |
| PyTinySR.BinCentersSpacing | pytinysr/tinysr.py:21 | adjacent centres are at least 3 bins apart, and no gap exceeds the next by more than one |
| PyTinySR.SampleOfBytes | pytinysr/tinysr.py:51 | a 16-bit sample survives its split into two little-endian bytes |
| PyTinySR.BytesOfSample | pytinysr/tinysr.py:51 | two bytes survive their combination into a signed sample |
| PyTinySR.Decode | pytinysr/tinysr.py:50-51 | a byte string of odd length raises struct.error; every other decodes |
| PyTinySR.DecodeEncode | pytinysr/tinysr.py:51 | decoding the encoding of samples returns them |
| PyTinySR.EncodeDecode | pytinysr/tinysr.py:51 | encoding the decoding of an even-length byte string returns it |
| PyTinySR.Downmix | pytinysr/tinysr.py:53-54 | output i is the sum of samples 2i and 2i + 1; an odd trailing sample is dropped |
| PyTinySR.DownmixInterleaved | pytinysr/tinysr.py:53-54 | interleaved stereo, with at most one stray sample, mixes to left + right per frame |
| PyTinySR.Prepared | pytinysr/tinysr.py:50-55 | preparation fails exactly on odd-length bytes; without downmix it yields the decoded or given samples as floats |
| PyTinySR.Interpolated | pytinysr/tinysr.py:57-62 | the values one input sample x yields: Lerp(prev, x, d) at d, d + step, ... while the time is at most 1 |
| PyTinySR.InterpolatedStep | pytinysr/tinysr.py:57-62 | one pass of the while loop appends the interpolated value and advances the delta by the step; the passes left decrease |
| PyTinySR.InterpolatedBetween | pytinysr/tinysr.py:57-58 | every value interpolated for a sample lies between the previous and the current sample |
| PyTinySR.DeltaAfter | pytinysr/tinysr.py:57-62 | the loop leaves the delta above 1, never lowers it, and, if it ran, at most 1 + step |
| PyTinySR.NonPositiveRateNeverExits | pytinysr/tinysr.py:57-62 | with input_sample_rate <= 0 the delta never rises, so the while loop never ends |
| PyTinySR.ResampledAsWritten | pytinysr/tinysr.py:56-67 | the stream as written: each sample's interpolated values, the time carried on without being moved back |
| PyTinySR.AsWrittenSilentPastOne | pytinysr/tinysr.py:57 | as written, once the delta exceeds 1 no later sample produces any output |
| PyTinySR.AsWrittenOnlyFirstSample | pytinysr/tinysr.py:56-67 | as written, the whole output comes from the first input sample |
| PyTinySR.Resampled | pytinysr/tinysr.py:56-67 | (corrected) the stream with the time moved back by one input period after each sample |
| PyTinySR.ResampledSnoc | pytinysr/tinysr.py:56-67 | with the delta carried over minus one, one more sample appends exactly its interpolated values |
| PyTinySR.DeltaAfterAll | pytinysr/tinysr.py:56-67 | after at least one sample the carried delta is positive |
| PyTinySR.ResampledSameRate | pytinysr/tinysr.py:56-67 | at a step of 1, with the delta at 1, resampling is the identity |
| PyTinySR.ResampledSameRateFromStart | pytinysr/tinysr.py:34-35 | from a fresh context (delta 0, previous sample 0) at a step of 1, the output is 0 followed by the input |
| PyTinySR.ResamplingDiscrepancy | pytinysr/tinysr.py:56-67 | for input [1, 2, 3] at step 1, the code as written gives [0, 1] and the corrected resampler [0, 1, 2, 3] |
| PyTinySR.MelBin | pytinysr/tinysr.py:79-83 | triangular filter k: rising weights over bins c[k] .. c[k+1], falling weights after c[k+1] up to c[k+2] |
| PyTinySR.MelBins | pytinysr/tinysr.py:78-83 | the 23 filter outputs MelBin(f, 0) .. MelBin(f, 22) |
| PyTinySR.WeightsInUnit | pytinysr/tinysr.py:81-83 | each triangle weight lies in (0, 1] over its support and is 1 at the peak |
| PyTinySR.WeightedSumNonNegative | pytinysr/tinysr.py:80-83 | a weighted sum of non-negative bins over a triangle side is non-negative |
| PyTinySR.MelBinsNonNegative | pytinysr/tinysr.py:78-84 | non-negative magnitudes give non-negative filter outputs, so each logarithm argument is at least 2e-22 |
| PyTinySR.FilterBank | pytinysr/tinysr.py:78-83 | the corrected loop computes the 23 triangular mel filters over centres c[k], c[k+1], c[k+2] |
| PyTinySR.FilterOutput | pytinysr/tinysr.py:79-83 | the two inner loops compute filter k |
| PyTinySR.AddSide | pytinysr/tinysr.py:80-81 | one inner loop adds the weighted bins of one triangle side to the accumulator |
| PyTinySR.FilterBankAsWritten | pytinysr/tinysr.py:78-83 | as written, bin k is twice the magnitude at centre c[k]: the loop computes BinsAsWritten |
| PyTinySR.BinAsWritten | pytinysr/tinysr.py:80-83 | as written, each inner range is the single bin c[k]; integer division makes the rising weight 0 and the falling weight 2 |
| PyTinySR.BinsAsWritten | pytinysr/tinysr.py:78-83 | the output of the filter bank as written: bin k is twice the magnitude at c[k] |
| PyTinySR.FilterBankDiscrepancy | pytinysr/tinysr.py:79-83 | on a flat spectrum, triangular filter 0 gives 4.0 where the filter bank as written gives 2.0, so the two banks differ |
| PyTinySR.LogEnergy | pytinysr/tinysr.py:70 | the given logarithm of the frame's sum of squares, with no floor added |
| PyTinySR.LogBins | pytinysr/tinysr.py:84 | one logarithm of bin + 2e-22 per bin |
| PyTinySR.Cepstrum | pytinysr/tinysr.py:85 | the cosine transform yields 13 coefficients |
| PyTinySR.CepstrumZeroIsTotal | pytinysr/tinysr.py:85 | coefficient 0 (cosine 1) is the sum of the log bins |
| PyTinySR.NoiseFloorStep | pytinysr/tinysr.py:86 | the new estimate is the smaller of the log energy and the 0.999/0.001 blend, never above either; it rises only towards a higher log energy |
| PyTinySR.NoiseFloorAfter | pytinysr/tinysr.py:86 | the estimate after a run of frames: NoiseFloorStep applied to each frame's log energy in order, from the initial 100 |
| PyTinySR.FrameSpectrum | pytinysr/tinysr.py:71-77 | a frame yields 512 magnitudes |
| PyTinySR.FrameCepstrum | pytinysr/tinysr.py:69-85 | a frame yields 13 cepstral coefficients |
| PyTinySR.Features | pytinysr/tinysr.py:86-89 | one feature vector per frame |
| PyTinySR.FeatureOfFrame | pytinysr/tinysr.py:86-89 | vector i is numbered i + 1, carries frame i's log energy and cepstrum, and a noise floor no higher than that log energy |
| PyTinySR.FeaturesPrefix | pytinysr/tinysr.py:86-89 | the vectors of a prefix of the frames are a prefix of the vectors: earlier vectors never change |
| PyTinySR.FramesTile | pytinysr/tinysr.py:63-66 | frame f is samples 400 f up to 400 (f + 1) of the stream: frames do not overlap |
| PyTinySR.PreEmphasize | pytinysr/tinysr.py:71-72 | the downward loop equals pre-emphasis from unfiltered neighbours, first sample kept |
| PyTinySR.ApplyWindow | pytinysr/tinysr.py:73-74 | each sample is multiplied by its Hamming coefficient |
| PyTinySR.PadToFftLength | pytinysr/tinysr.py:75-76 | the frame is padded with zeros to 512 |
| PyTinySR.Context.constructor | pytinysr/tinysr.py:31-45 | every field takes its initial value, and the context is valid |
| PyTinySR.Context.Step | pytinysr/tinysr.py:62 | the time advance per resampled value, input_sample_rate / 16000.0 |
| PyTinySR.Context.FeedInput | pytinysr/tinysr.py:47-67 | (corrected) odd-length bytes raise struct.error and change nothing; otherwise the resampled stream grows by the resampling of the prepared samples; the pending vectors grow by the features of the new frames |
| PyTinySR.Context.FeedSamples | pytinysr/tinysr.py:56-67 | (corrected) the sample loop extends the resampled stream by the resampling of the samples and carries the delta and the previous sample |
| PyTinySR.Context.FeedSample | pytinysr/tinysr.py:57-67 | (corrected) one sample appends its interpolated values; the delta carries over minus one |
| PyTinySR.Context.Interpolate | pytinysr/tinysr.py:57-66 | the while loop appends the interpolated values and leaves the delta above 1 |
| PyTinySR.Context.EndSample | pytinysr/tinysr.py:67 | (corrected) the sample becomes the previous one, and the delta is moved back by one input period |
| PyTinySR.Context.ResamplePass | pytinysr/tinysr.py:58-66 | one pass appends one interpolated value and advances the delta by one step |
| PyTinySR.Context.Emit | pytinysr/tinysr.py:58-62 | one interpolated value is offset-compensated, extending both streams |
| PyTinySR.Context.Compensate | pytinysr/tinysr.py:59-61 | the filter state follows both streams, each extended by one |
| PyTinySR.Context.Buffer | pytinysr/tinysr.py:63-66 | the buffer stays below 400, and the stream is the completed frames followed by the buffer |
| PyTinySR.Context.ProcessFrame | pytinysr/tinysr.py:69-89 | (corrected) the noise floor takes one step, one vector with the frame's log energy, cepstrum and number is appended, and the number advances |
| PyTinySR.Context.DetectUtterances | pytinysr/tinysr.py:91-96 | in one-shot mode pending vectors become one utterance of their cepstra and are cleared; otherwise nothing changes |
| PyTinySR.PendingFeatures | pytinysr/tinysr.py:86-96 | the pending vectors grow by exactly the features of the frames added since |
| PyTinySR.FeaturesAppend | pytinysr/tinysr.py:86-89 | processing one more frame keeps every frame's vector accounted for once |
| ModelGen.StripLeft | scripts/model_gen.py:11 | removes exactly the leading whitespace |
| ModelGen.StripRight | scripts/model_gen.py:11 | removes exactly the trailing whitespace |
| ModelGen.Strip | scripts/model_gen.py:11 | `line.strip()`: trailing whitespace removed after leading whitespace |
| ModelGen.StripBlank | scripts/model_gen.py:11-12 | a line is skipped exactly when it is all whitespace |
| ModelGen.StripIdempotent | scripts/model_gen.py:11 | stripping twice is stripping once |
| ModelGen.Split | scripts/model_gen.py:13 | at least one field, none containing the separator |
| ModelGen.JoinSplit | scripts/model_gen.py:13 | joining the fields with the separator restores the line |
| ModelGen.SplitJoin | scripts/model_gen.py:13 | splitting a join of separator-free fields returns them |
| ModelGen.ParseAll | scripts/model_gen.py:13 | `map(float, ...)` succeeds exactly when every field converts; otherwise ValueError on the first field that does not |
| ModelGen.ParseLine | scripts/model_gen.py:13 | every comma-separated field converted, then the first dropped, or the error of the first bad field |
| ModelGen.ParseLineFields | scripts/model_gen.py:13 | a line parses exactly when all its fields do, and yields the fields after the first |
| ModelGen.NonBlank | scripts/model_gen.py:10-12 | the stripped lines that are not empty, in file order, never more than there are lines |
| ModelGen.ParsedLines | scripts/model_gen.py:10-13 | one vector per non-blank line in file order, or the error of the first line that fails |
| ModelGen.ParsedLinesNonBlank | scripts/model_gen.py:10-13 | blank lines are skipped |
| ModelGen.ParseEachMeaning | scripts/model_gen.py:10-13 | a list of lines parses exactly when each line does, into one vector per line |
| ModelGen.ParsedLinesMeaning | scripts/model_gen.py:10-13 | the file parses exactly when each non-blank line does, into one vector per non-blank line |
| ModelGen.ParsedLinesFailureSticks | scripts/model_gen.py:10-13 | once a line raises, later lines do not matter |
| ModelGen.UtteranceVectors | scripts/model_gen.py:6-13 | the reading loop yields the parse of the file |
| ModelGen.Mean | scripts/model_gen.py:18 | the mean has the dimension of the vectors |
| ModelGen.Centered | scripts/model_gen.py:20 | one centred vector per vector, of the same dimension |
| ModelGen.CenteredComponentSum | scripts/model_gen.py:20 | subtracting m from each vector lowers each component sum by n m[i] |
| ModelGen.CenteredSumsToZero | scripts/model_gen.py:18-20 | the mean-centred data sum to zero in every component |
| ModelGen.Covariance | scripts/model_gen.py:26 | the covariance is an n-by-n matrix |
| ModelGen.CovarianceSymmetric | scripts/model_gen.py:26 | the covariance is symmetric |
| ModelGen.CovarianceDiagonal | scripts/model_gen.py:26 | the variances on the diagonal are non-negative |
| ModelGen.CovarianceProperties | scripts/model_gen.py:26 | symmetry and non-negative diagonal hold for every index |
| ModelGen.SingleVectorCovariance | scripts/model_gen.py:18-26 | a single-vector cluster has the zero covariance matrix |
| ModelGen.NewGaussian | scripts/model_gen.py:16-30 | an empty cluster divides by zero; otherwise the mean, a symmetric covariance with non-negative variances, its inverse and -0.5 log det |
| ModelGen.LogLikelihood | scripts/model_gen.py:32-35 | `ll`: ll_const - 0.5 d . (covar_inv d), d the datum minus the mean |
| ModelGen.LogLikelihoodAtMean | scripts/model_gen.py:32-35 | at the mean, the log-likelihood is ll_const |
| ModelGen.LogLikelihoodPeak | scripts/model_gen.py:32-35 | for a positive-semidefinite inverse covariance, no datum scores above the mean |
| Resampler.Trunc | playground/resample.py:16 | `int()` truncates towards zero |
| Resampler.OutputLength | playground/resample.py:10-14 | the loop count int(new_length), truncated toward zero, and 0 when negative |
| Resampler.NewLengthAtLeastOne | playground/resample.py:10-14 | a loop that runs at all has new_length of at least 1 |
| Resampler.OutputLengthSameRate | playground/resample.py:10-14 | at equal rates there are len(a) outputs |
| Resampler.RatesAgree | playground/resample.py:10-15 | when the loop runs, a is non-empty, the rates share a sign and new_length times the time step is len(a) |
| Resampler.Position | playground/resample.py:15 | the input time of output i, i times old_rate / new_rate |
| Resampler.PositionInRange | playground/resample.py:14-18 | every time the loop reaches is non-negative with integer part below len(a), so a[l] and a[l + 1] exist |
| Resampler.Padded | playground/resample.py:12 | the list followed by a copy of its last sample |
| Resampler.Resampled | playground/resample.py:8-19 | old_rate 0 raises ZeroDivisionError, an empty list IndexError, otherwise int(new_length) samples (none if negative) |
| Resampler.Resample | playground/resample.py:8-19 | the loop computes the resampling |
| Resampler.OutputSample | playground/resample.py:16-18 | output i: the blend (1 - coef) a[l] + coef a[l + 1], l and coef the integer and fractional parts of its time |
| Resampler.CoefInUnit | playground/resample.py:15-17 | each interpolation coefficient lies in [0, 1) |
| Resampler.OutputBetweenNeighbours | playground/resample.py:15-18 | each output lies between the two input samples it interpolates |
| Resampler.OutputWithinInputRange | playground/resample.py:12-18 | every output lies within any bounds of the input |
| Resampler.SameRateIsIdentity | playground/resample.py:8-19 | at equal rates the output is the input |
| Resampler.IndexMonotone | playground/resample.py:15-16 | whenever the time step old_rate / new_rate is not negative (as whenever the loop runs), the left neighbour never moves backwards |

## Left out

- Floating point. `float`, `float32` and double rounding are modelled as exact reals. The
  constants 2e-22 and 0.999 are exact.
- Transcendental functions. `cosf`, `sinf`, `sqrtf`, `logf`, `math.cos`, `math.log` and
  `math.e ** x` are given functions in `Dsp.Numerics`, so the FFT is proved against
  its recursive definition for any twiddle table, not against the discrete Fourier
  transform.
- PyTinySR.LogEnergy: a silent frame makes `math.log(0)` raise ValueError in Python
  (`pytinysr/tinysr.py:70`); the model's logarithm is a total given function.
- ModelGen.NewGaussian:
  - `numpy.linalg.inv`, `numpy.linalg.det` and `math.log` are given functions, so a
    singular covariance is not a modelled error;
  - `scripts/model_gen.py` imports only numpy, os and sys, so line 30 would raise
    NameError as written; the model uses the intended `math.log`;
  - it requires vectors of one dimension, since numpy broadcasting of ragged input is
    not modelled.
- ModelGen.LogLikelihoodPeak: positive semidefiniteness of the inverse covariance is
  assumed, not derived from `inv`.
- Script bodies and file I/O:
  - the file reading at `scripts/model_gen.py:9-10` becomes a list of lines;
  - `float()` becomes the `toFloat` parameter;
  - the `print` at `playground/resample.py:9` and the wave-file code after line 20 are
    not modelled.
- The unfinished `Model` class and the bare `def` at `scripts/model_gen.py:37-41` are not
  modelled. They do not parse, so as written the whole script is rejected with a syntax
  error before any line runs.
- Python typos. As written, `self.self.offset_comp_prev_out` (`pytinysr/tinysr.py:59`)
  raises AttributeError on the first interpolated sample, so `feed_input` never produces
  a frame. The unbound `noise_foor_estimate` (`:87`) would raise NameError in
  `process_frame`. The model reads the intended fields, and the FeatureVector carries the
  updated noise-floor estimate.
- `malloc`/`free`, `tinysr_free_ctx` and the unused frame list of `tinysr.h:17-35` are not
  modelled; arrays are Dafny allocations.
- TinySR.Context.ProcessFrame: `logE` is returned, while the C code computes and discards
  it.
- TinySR.Context.FeedInput: `samp_t` is a 64-bit integer and its conversion to `float`
  rounds; the model converts exactly. The C `length` argument becomes the length of
  the sequence.
- Free-running utterance detection (`pytinysr/tinysr.py:97`) is unwritten in the
  source. The thresholds at lines 24-29 and the `excitement` and
  `accumulated_utterance` fields are kept but never used.
- PyTinySR.Context: the context runs the corrections of the second and third Findings
  rows, not the code as written. The delta drops by one after each input sample
  (`EndSample`), and `process_frame` uses the triangular filters (`FilterBank`). The
  as-written resampler (`ResampledAsWritten`) and filter bank (`FilterBankAsWritten`)
  are modelled beside it, not inside the context.
- PyTinySR.Context.FeedInput, PyTinySR.Context.FeedSamples, PyTinySR.Context.FeedSample
  and PyTinySR.Context.Interpolate require `input_sample_rate > 0`. With a rate of zero or
  less, the while loop at `pytinysr/tinysr.py:57` never ends
  (`PyTinySR.NonPositiveRateNeverExits`), and the model does not describe that run.
- TinySR.AbsFft: for a length that is not a power of two, the C `assert` at
  `tinysr.c:127` aborts the process (or, under NDEBUG, the routine runs on regardless).
  The model instead returns `ok == false` and leaves the array unchanged.
- PyTinySR.Context: `input_sample_rate` is fixed once the context exists (the resampling
  step depends on it); setting it between calls is not modelled.
- PyTinySR.Context.FeedInput: the `isinstance(samples, str)` test becomes the `Input`
  datatype (bytes or numbers).
- The `apps/` programs, `test_tinysr.c` and the training scripts are not part of this
  model.

## Findings

| source | as written | input that shows it | evidently intended | confidence | as-written member | corrected member |
|---|---|---|---|---|---|---|
| tinysr.c:22 | `temp_buffer` is allocated with FRAME_LENGTH (400) floats, but zero padding and the FFT write FFT_LENGTH (512) entries (`tinysr.c:91-94`) | any completed frame: 112 floats are written past the end | allocate FFT_LENGTH floats | high, not executed | TinySR.TempBufferOverflowAsWritten | TinySR.Context.constructor |
| pytinysr/tinysr.py:79-83 | each inner range is `xrange(c, c + 1)`, and Python 2 integer division makes the rising weight 0 and the falling weight 2, so bin k is 2 F[c_k] | a flat spectrum of ones: bin 0 is 2.0, while the triangle over bins 2..8 gives 4.0 | triangular filters rising over c[k]..c[k+1] and falling to c[k+2] | high, not executed | PyTinySR.FilterBankDiscrepancy | PyTinySR.FilterBank |
| pytinysr/tinysr.py:57-67 | `resampling_time_delta` is never decreased after a sample, so once it exceeds 1 no later sample reaches the buffer | input [1, 2, 3] at a step of 1 from a fresh context: output [0, 1] instead of [0, 1, 2, 3] | subtract 1 (one input period) from the delta after each input sample | high, not executed | PyTinySR.ResamplingDiscrepancy | PyTinySR.Context.EndSample |
