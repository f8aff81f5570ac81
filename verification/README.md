# go-aac in Dafny

A model of go-aac, an AAC-LC encoder and fixed-point decoder, with proofs of the
properties its parts are for. The encoder's bitstream writer and the decoder's
parser are modelled statement by statement and joined by a round trip; so are the
encoder's searches, its control loops and its streaming layer, and the decoder's
recovery from damaged units.

Objects whose methods update fields are classes here (`BitWriter.Writer`,
`BitReader.Reader`, `Vlc.Table`, `SectionCoder.SingleChannelElement`,
`SectionCoder.Coder`, `ViterbiSearch.Work`, `FftTransform.Fft`,
`CostCache.Store`, `WindowSwitch.Channel`, `FrameStream.FrameEncoder`,
`AdtsFramer.Framer`, `DecChannel.Sce`, `DecElements.Cpe`, `DecImdct.DspState`,
`DecDecoder.Decoder`, `DecFrameDecoder.FrameDecoder`). Go arrays are values, so
fixed arrays inside a struct are `seq` fields that the methods reassign; buffers
passed by slice are `array`s. Each method is proved equal to a function of its
inputs or its old state, and the theorems are about those functions.

The main results, by module:

- The bitstream. `AacPrint` gives the bits of a channel, `AacParse` and `AacFrame`
  the decoder's parsers as functions of a cursor. `RoundTrip` proves that parsing
  the printed bits consumes exactly them and recovers everything. `ChannelCoder`
  and `FrameCoder` prove that the encoder's methods write exactly printed bits,
  although they walk slots `w*16+b` where the decoder walks `g*max_sfb+b`;
  `DecStream` and `DecBlock` prove that the decoder's methods, filling arrays that
  hold stale data, read exactly what the parsers read; `EndToEnd` joins the two.
- Legal scalefactors. `FinalPass`, `ScalefactorChain`, `FrameAdjust` and
  `LegalChannel` prove that the passes leave only codable deltas, and say exactly when
  the first noise band's nine plain bits hold its delta too. `FrameReady` takes the
  passes through the frame adjustment to the writer, and `StaleBands` says what the
  final pass does with scalefactors no search has set.
- Searches. `SectionTrellis`/`SectionCoder` (codebook sectioning, and in
  `SectionOptimality` how far it is from the least one), `TrellisStep`
  (three forms of one Viterbi step) and `ViterbiSearch` (the lambda-bisected
  shortest path, optimal with its tie-breaking). `SpecialLevels` and `FinalValues`
  say which scalefactor and codebook the passes behind the search give each band.
- Error transparency. `DecRender` says what a unit's PCM depends on; `DecRecon`,
  `DecDecoder` and `DecFrameDecoder` prove that the decoder computes that and that a
  failed unit leaves the observable state alone; `DecSession` lifts it to runs.
- What the decoder accepts: `DecAccepts`, `DecSkip`, `DecPulses`.
- Reconstruction, coefficient by coefficient and sample by sample: `DecBands`,
  `DecWindows` (the decoder's overlaps under the windows the encoder's agree with)
  and `DecPcm`.
- Control loops and streaming: `RateLoop`, `WindowSwitch`, `FrameStream` with
  `FrameUnits`, `AdtsHeader`/`AdtsAny`, `AdtsFramer`, `AudioConfig`/`AscExtension`.
- Self-contained algorithms: `Rings`/`FftSpec`/`FftTransform`, `SplitRadix`, `Vlc`,
  `TnsFilter`/`TnsLattice`, `FixedSqrt`, `Primes`/`CbrtTable`, `CostCache`.

Floating point is modelled over `real`, with the sentinel of the Viterbi search as
an explicit infinity. Code tables are parameters: prefix-free books whose symbol
descriptors pack digits the way the decoder unpacks them (`AacSyntax.Packed`). The
numeric kernels of reconstruction (inverse MDCT, windowed overlap, cube root,
scalefactor scaling, noise scaling, the fixed-point TNS filter) are parameters of
`DecRender.Kernels`; what is proved of reconstruction is what it reads, in which
order, under which window and scale, and where it writes.

What later units can see of the decoder (`DecSession.Obs`) is the configuration,
the noise generator, and per channel the last window sequence, the last window
shape and the overlap memory. Everything else, stale band types, scalefactors,
coefficients, masks, presence flags and transform scratch, is proved not to matter.

Where code and documentation differ, the code is modelled:

- A comment at `internal/enc/bitstream.go:124-133` says that the remaining bands
  are skipped after a scalefactor delta that is out of range. The `return` only
  leaves the closure for that band, so later bands are still written;
  `SideCoder.EncodeScaleFactors` does the same.
- The tabulated cost of a short-window run of exactly 14 is 6 bits
  (`RunValueBitsShort[14]`), while the writer emits 9. `SectionTrellis.PriceIsBits`
  states the 3 bits as an exact correction, and the table as it is.
- The comment at `internal/coder/trellis.go:18-20` says that the sectioning minimises
  section and spectral bits. A path keeps only the run that was cheapest so far, so the
  search can miss the least: `SectionOptimality.LeastExactly` shows that it finds it
  for all bit costs exactly when the group has fewer bands than one run value holds, 7
  in short windows and 31 in long ones, and `NearLeast` bounds the loss. Costs are
  bounded as codewords bound them: at least a bit for four coefficients.
- The encoder writes the first noise delta into nine bits without a check. A delta
  below -256 wraps around; `LegalChannel.EverythingLegal` states the exact condition in
  terms of the band's level and the gain, and `LegalChannel.NoiseUnderruns` a channel
  that fails it.
- An overlap after a first frame that is ONLY_LONG uses a sine right half in the
  analysis and a KBD window in the synthesis; `WindowSwitch.RunAgrees` makes this the
  only exception.
- The cost cache before its first `CacheInit` reports a hit for codebook 0 without
  rounding; `CostCache.ZeroValueLookup` states exactly when a lookup there is right.

## Model

| member | source | states |
|---|---|---|
| BitWriter.Writer.Put | internal/bits/writer.go:33-44 | the low n bits of the value are appended to the bits written so far, for every n up to 32; the 64-bit accumulator never loses a bit |
| BitWriter.Writer.Flush | internal/bits/writer.go:57-66 | the bytes handed out are the written bits followed by fewer than 8 zeros |
| BitReader.Reader.Peek | internal/bits/reader.go:47-68 | the byte-wise 64-bit load yields the next n bits, zeros past the end |
| BitReader.Reader.Skip | internal/bits/reader.go:72-78 | the position is clamped to the end and the overread flag is sticky |
| BitReader.Reader.Align | internal/bits/reader.go:95-97 | moves to the next byte boundary and never overreads |
| BitReader.ReadField | internal/bits/reader.go:83-87 | a field that was written reads back with its value and the cursor ends just behind it |
| Vlc.CoverUnique | internal/vlc/vlc.go:39-42 | in a prefix-free code at most one codeword covers a bit pattern |
| Vlc.LookupIs | internal/vlc/vlc.go:90-93 | searching a prefix-free code finds symbol j and lengths[j] bits whenever codeword j begins the zero-padded input, so the result is unique |
| Vlc.LookupWord | internal/vlc/vlc.go:90-93 | a written codeword is found again and exactly its bits are consumed |
| Vlc.Table.New | internal/vlc/vlc.go:43-88 | for every prefix-free code of words of 1 to 32 bits, the two-level table built in two passes describes exactly that code: every root and subtable entry belongs to its one owner, every other entry is empty |
| Vlc.Table.Decode | internal/vlc/vlc.go:94-110 | succeeds if and only if some codeword begins the zero-padded input, with that codeword's symbol and length |
| AacForward.ParseChannelForward | internal/dec/frame.go:182-230 | parsing a channel never steps back, never changes the input and never clears the overread flag |
| AacParse.ParseIcsGeo | internal/dec/syntax.go:17-65 | an accepted ics_info has group lengths of at least one that sum to the windows, and bands within the band table |
| AacParse.ParseSideFits | internal/dec/frame.go:182-216 | accepted side information has one band type and scalefactor per band of each group, pulse positions inside the spectrum, and no pulses in short windows |
| DecAccepts.AcceptedInRange | internal/dec/frame.go:182-230 | whatever the bits, an accepted channel has every scalefactor in the range of its kind, and per window at most three long filters of order up to 12 or one short of order up to 7, with as many coefficients |
| DecAccepts.IcsRefused | internal/dec/syntax.go:17-65 | ics_info is refused if and only if it asks for prediction in a long window or for more bands than the window has |
| DecAccepts.MsRefused | internal/dec/frame.go:235-263 | of the M/S modes exactly the reserved one is refused |
| AacSyntax.JobsGood | internal/dec/spectrum.go:33-66 | every (group, band, window) the coefficient walk visits has a band index and lies within the 1024 coefficients |
| RoundTripSide.IcsRoundTrip | internal/enc/bitstream.go:41-58 | ics_info read back: window sequence, shape, max_sfb and grouping, consuming exactly the written bits |
| RoundTripSide.BandTypesRoundTrip | internal/dec/syntax.go:71-105 | section data reads back as the band types its sections assign, for every list of sections and both run widths |
| RoundTripSide.SfsRoundTrip | internal/dec/syntax.go:110-156 | normal, noise and intensity scalefactor chains read back, the first noise band through its nine plain bits |
| RoundTripSide.PreambleReadsBack | internal/enc/bitstream.go:108-115 | the first noise scalefactor comes back from its nine bits if and only if it is at least the gain less 346; otherwise the decoder reads it 512 higher, clipped to 155 |
| RoundTripSide.TnsRoundTrip | internal/dec/syntax.go:195-233 | every TNS filter reads back, also when its indices were sent in compressed form |
| RoundTripSpectrum.EscapeRoundTrip | internal/dec/spectrum.go:152-195 | escape values 16..8191 read back |
| RoundTripSpectrum.ChunkRoundTrip | internal/dec/spectrum.go:75-195 | one codeword of any of the eleven codebooks, with its signs and escapes, reads back as its values, given only that the symbol descriptors pack digits as the decoder unpacks them |
| RoundTripSpectrum.SpectrumRoundTrip | internal/dec/spectrum.go:23-71 | all coefficients of all coded bands read back |
| RoundTrip.ChannelRoundTrip | internal/enc/bitstream.go:17-35 | parsing the bits of a channel consumes exactly them and returns window data, band types, all three scalefactor chains, TNS filters and coefficients |
| RoundTrip.CoefficientsComeBack | internal/dec/spectrum.go:23-71 | coefficient x of the parsed channel is the encoder's, sign included, if its band is coded, and 0 otherwise |
| RoundTrip.FrameRoundTrip | internal/dec/frame.go:86-177 | the element loop reads a whole mono or stereo raw_data_block back, M/S mask included, whatever follows it |
| SectionTrellis.NeverBig | internal/coder/trellis.go:47-125 | real path costs stay below the sentinel 61450 |
| SectionTrellis.PriceIsBits | internal/coder/trellis.go:47-125 | the accumulated cost of a sectioning is its section bits plus its spectral bits, less 3 for each short-window run of exactly 14 |
| SectionTrellis.WinnerLive | internal/coder/trellis.go:127-143 | the backtrack from the winner terminates, its runs partition the bands and its cost is the price of its sections |
| SectionTrellis.ExpandAllowed | internal/coder/trellis.go:86-95 | zero bands stay zero, special bands keep their type, coded bands get a codebook no smaller than their least one |
| SectionCoder.Coder.Fill | internal/coder/trellis.go:47-125 | the path matrix reused between calls holds the rows of the search for this group |
| SectionCoder.Coder.Backtrack | internal/coder/trellis.go:127-143 | the stack read from its end is the chosen sectioning |
| SectionCoder.Coder.PutRun | internal/coder/trellis.go:153-157 | a run is written as escape chunks and a remainder |
| SectionCoder.Coder.CodebookTrellisRate | internal/coder/trellis.go:28-158 | appends the section data of the chosen sections and overwrites exactly the group's band types and zero flags with what they expand to |
| SectionCoder.SectioningCorrect | internal/coder/trellis.go:28-158 | the decoder recovers the chosen codebooks from the written bits, they are allowed, and the winning cost plus 3 per run of 14 short bands is section bits plus spectral bits |
| SectionOptimality.NearLeast | internal/coder/trellis.go:18-20 | the chosen sectioning takes at most one run value per section more than any legal one, plus 3 bits where a run of 14 short bands is possible |
| SectionOptimality.LeastBelowChunk | internal/coder/trellis.go:18-20 | in a group of fewer than 7 short or 31 long bands no legal sectioning takes fewer bits than the chosen one |
| SectionOptimality.TrapMisses | internal/coder/trellis.go:97-125 | for every larger number of bands there are bit costs, at least a bit for every four coefficients of a coded band and at most 17 bits a band, for which the search ends dearer than another legal sectioning |
| SectionOptimality.LeastExactly | internal/coder/trellis.go:18-20 | so the search minimises section and spectral bits for all bit costs within the bounds codewords have if and only if the group has fewer bands than that |
| BandInfoCoder.RewrittenPick | internal/coder/trellis.go:144-152 | after sectioning all groups the transmitted slots hold, in bitstream order, what the sections expand to |
| BandInfoCoder.RewrittenKinds | internal/coder/trellis.go:144-152 | sectioning keeps every transmitted band's kind and only raises codebooks |
| BandInfoCoder.SectionGroups | internal/enc/bitstream.go:84-86 | runs the search group by group: the section data of all groups is appended and every group's slots are rewritten |
| SideCoder.PutIcsInfo | internal/enc/bitstream.go:41-58 | writes ics_info; the seven grouping bits read off zero group lengths are those of the group list |
| SideCoder.EncodeMsInfo | internal/enc/bitstream.go:63-77 | writes the M/S mode and, in mode 1, the mask over the transmitted bands in order |
| SideCoder.PutScalefactor | internal/enc/bitstream.go:103-138 | one band: its bits, its chain update, and a failure exactly when the delta has no code |
| SideCoder.EncodeScaleFactors | internal/enc/bitstream.go:97-139 | writes the chains of the transmitted bands and reports a failure if and only if some delta is outside the code |
| TnsCoder.CompressCoeffs | internal/coder/tns.go:315-328 | compresses the indices in place if and only if none lies in 4..11, and touches nothing beyond them |
| TnsCoder.EncodeTnsInfo | internal/coder/tns.go:332-365 | writes the filters of all windows, nothing when TNS is off |
| SpectrumCoder.CodeIndex | internal/coder/quantize.go:200-222 | the running multiply-and-add is the codeword index of the digit vector |
| SpectrumCoder.PutEscape | internal/coder/quantize.go:283-288 | writes the unary length and the value of an escape |
| SpectrumCoder.PutChunk | internal/coder/quantize.go:268-290 | writes codeword, sign bits of nonzero values, then escapes |
| SpectrumCoder.EncodeSpectralCoeffs | internal/enc/bitstream.go:144-163 | writes the coefficients of every coded band of every window in the order the decoder walks them, although the two sides index bands differently |
| ChannelCoder.FinalIsPrintable | internal/enc/bitstream.go:17-35 | what the passes, the special scalefactors and the sectioning leave has bits, with every delta codable and every coefficient carried by its codebook, and is well-formed if and only if the first noise level fits |
| ChannelCoder.EncodeBandInfo | internal/enc/bitstream.go:82-87 | derives the special scalefactors, then sections and writes all groups |
| ChannelCoder.EncodeIndividualChannel | internal/enc/bitstream.go:17-35 | never fails, and the bits appended are exactly those of the channel with the decisions that were made, which is well-formed if and only if the first noise level fits |
| FrameCoder.WriteBlock | internal/enc/encoder.go:527-547 | the bytes of a mono or stereo frame parse back to exactly the frame's element, and only padding follows |
| ScalefactorChain.LevelsIs | internal/coder/utils.go:50-72 | the first pass puts noise and intensity scalefactors in their ranges and touches nothing else |
| ScalefactorChain.SmoothIs | internal/coder/utils.go:73-93 | the second pass makes consecutive noise and intensity scalefactors differ by at most 60 and keeps them in range |
| ScalefactorChain.SpecialIs | internal/coder/utils.go:50-93 | after both passes the special chains are codable and in range and no other scalefactor has changed |
| SpecialLevels.SpecialIsNearest | internal/coder/utils.go:50-93 | each noise or intensity band ends with the scalefactor nearest to its clipped level that can follow the last one of its kind; the first noise band keeps its level and intensity starts at 0 |
| SpecialBands.SetSpecialBandScalefactors | internal/coder/utils.go:50-93 | the in-place passes compute the special scalefactors of the channel |
| FinalPassCoder.LinkIsNext | internal/coder/utils.go:21-35 | a coded band's link leads to the next coded band, the last one's to itself |
| FinalPassCoder.InitNextbandMap | internal/coder/utils.go:21-35 | builds those links over the channel's bands |
| FinalPass.PassBandIs | internal/coder/nmr.go:785-819 | one band of the clamp pass: a band that stays coded is in 0..255 and within 60 of the previous coded one, the first one sets the gain, a dropped band drops its subwindows |
| FinalPass.GainIs | internal/coder/nmr.go:785-819 | the gain ends as the first coded scalefactor |
| FinalPass.FinalIs | internal/coder/nmr.go:780-837 | after the pass and the forward fill the normal chain starts at the gain, is codable and lies in 0..255; special bands are untouched |
| FinalValues.FinalDecides | internal/coder/nmr.go:780-837 | a band to be coded is dropped if and only if it needs no codebook and the next coded band can follow the last one without it; otherwise it keeps the scalefactor nearest to its own within 60 of the last coded one, and its least codebook, at least 1 |
| FinalValues.FilledAt | internal/coder/nmr.go:820-837 | the forward fill gives a band that is not coded the scalefactor of the last coded one, and touches neither special bands nor the gain |
| FinalValues.LinksAreLinked | internal/coder/utils.go:21-35 | the successor map the encoder builds is the one that decision looks at |
| StaleBands.FinalAny | internal/coder/nmr.go:780-837 | whatever scalefactors the coded bands hold, the pass keeps the normal chain within their bounds, and the chain starts at the gain and is codable unless a coded band ends at -1, the value that means none yet |
| StaleBands.StaleBreaks | internal/coder/nmr.go:795-819 | a band without coefficients left at -1 makes a delta without a code, and one left at -50 a negative gain |
| FinalPassCoder.FinalScalefactors | internal/coder/nmr.go:780-837 | the in-place pass and fill compute that result |
| FrameAdjust.MaxSfbCovers | internal/enc/encoder.go:1051-1063 | no band from max_sfb on is coded in any group |
| FrameAdjust.MaxSfbLeast | internal/enc/encoder.go:1051-1063 | max_sfb is no larger than it has to be: some group has its last band coded |
| FrameAdjust.SlotsApart | internal/coder/nmr.go:804-810 | the subwindow flags of one group's band never belong to another group's band |
| FrameAdjust.ReconcileIdle | internal/enc/encoder.go:1065-1075 | on flags the final pass has tidied, reconciling windows changes nothing |
| FrameAdjust.ReconciledAt | internal/enc/encoder.go:1065-1075 | a band's flag ends as whether it is zero in all windows of its group, and no other flag changes |
| FrameAdjust.AdjustChannel | internal/enc/encoder.go:1051-1075 | sets max_sfb to the last coded band over all groups and a band's flag to whether all its windows are zero |
| FrameAdjust.AdjustPair | internal/enc/encoder.go:1078-1099 | a pair with a common window gets the larger max_sfb and its M/S mode |
| FrameAdjust.MsModeFaithful | internal/enc/encoder.go:1078-1099 | mode 0 is used only when no transmitted band is in the mask and mode 2 only when all are, so the decoder always ends with the encoder's mask |
| FrameAdjust.MsModeIs | internal/enc/encoder.go:1078-1099 | the mode is 0 if and only if no transmitted band of any window is in the mask, and 2 if and only if all are |
| LegalChannel.ChainRestricted | internal/enc/bitstream.go:97-139 | a chain over all bands is codable if and only if it is over the transmitted ones |
| LegalChannel.SpecialThenSections | internal/enc/bitstream.go:82-139 | whatever search hands over a codable normal chain, after deriving the special scalefactors and sectioning every delta that is Huffman-coded lies in 0..120; all scalefactors read back if and only if the level of the first transmitted noise band, clipped to -100..155, is at least the gain less 346 |
| LegalChannel.FinalReady | internal/coder/nmr.go:780-837 | the final pass delivers that |
| LegalChannel.EverythingLegal | internal/enc/bitstream.go:97-139 | after final pass, special scalefactors and sectioning every coded delta lies in 0..120 and the gain in 0..255, so the writer's invariant failure is unreachable; all scalefactors read back exactly under that condition on the first noise level |
| LegalChannel.SpecialFirst | internal/coder/utils.go:62-93 | both special passes leave the first noise band at its clipped level, so the condition can be checked before them |
| LegalChannel.NoiseUnderruns | internal/enc/bitstream.go:108-115 | a channel at gain 255 with a noise level of -100 is ready and codable, and its noise scalefactor is read as 155 |
| FrameReady.AdjustedChain | internal/enc/encoder.go:1047-1076 | behind the final pass and the frame adjustment the normal chain is ready and no band from max_sfb on is coded, also under the larger max_sfb of a pair |
| FrameReady.ChannelReady | internal/enc/encoder.go:1047-1076 | a channel a search has left in range becomes one the writer can write |
| FrameReady.PairReady | internal/enc/encoder.go:1078-1099 | a pair with a common window that goes through the passes, one max_sfb and the counted M/S mode becomes a block the writer can write |
| FrameReady.PairMaskRoundTrip | internal/enc/encoder.go:1078-1099 | decoding that block's frame selects for mid/side exactly the transmitted bands of the encoder's mask, whichever of the three modes was sent |
| TrellisStep.DivBounds | internal/coder/nmr.go:98-112 | floorDiv and ceilDiv bound the multiples of a divisor of either sign |
| TrellisStep.OffsetsExact | internal/coder/nmr.go:150-172 | the closed-form window admits exactly the predecessors the difference filter admits, for every base and every step, zero and negative included |
| TrellisStep.StepUnique | internal/coder/nmr.go:139-204 | any two forms of the step agree on all costs and back-pointers |
| TrellisStep.StepFilter | internal/coder/nmr.go:114-138 | the plain filter over all predecessors meets the step specification: least cost, lowest index on ties, dead entries where nothing is admitted |
| TrellisStep.StepScalar | internal/coder/nmr.go:139-204 | the windowed step meets the same specification |
| TrellisStep.GeometryFits | internal/coder/nmr_trellis.go:43-57 | for up to 96 candidates kernel and pad fit their 2*96-1 and 3*96-2 scratch and every read of the sliding minimum is in range |
| TrellisStep.TapsAdmissible | internal/coder/nmr_trellis.go:43-57 | every kernel tap is an admissible difference |
| TrellisStep.StepPadded | internal/coder/nmr_trellis_simd.go:52-109 | the padded sliding minimum meets the same specification, fallback included |
| ViterbiSearch.EntryBounds | internal/coder/nmr.go:248-258 | each table entry is a lower bound on all paths to it, and its back-pointers prefer the path that is lexicographically least read from the last band back |
| ViterbiSearch.EntryReached | internal/coder/nmr.go:248-268 | the back-pointers of a finite entry trace a path of exactly its cost |
| ViterbiSearch.TracedIsOptimal | internal/coder/nmr.go:259-268 | the path traced from the first cheapest final entry minimises distortion plus lambda times bits over all candidate vectors with steps within 60, least on ties, whenever there is one |
| ViterbiSearch.MoreLambdaFewerBits | internal/coder/nmr.go:284-290 | a larger lambda never increases the counted bits of a cheapest path |
| ViterbiSearch.BisectionSound | internal/coder/nmr.go:284-290 | if a cheapest path misses the target so do all at smaller lambda, if it meets it so do all at larger lambda |
| ViterbiSearch.BracketNarrows | internal/coder/nmr.go:234-290 | with an exact root the middle lies inside the bracket, the bracket only shrinks, and n evaluations take the 2^n-th root of the ratio of its ends, whatever they count |
| ViterbiSearch.Work.Forward | internal/coder/nmr.go:239-258 | the buffers that swap roles hold the last layer, and the back-pointer rows those of all layers |
| ViterbiSearch.Evaluate | internal/coder/nmr.go:239-279 | at a fixed lambda the chosen candidates are optimal and the total is their bits |
| ViterbiSearch.Solve | internal/coder/nmr.go:223-293 | a legal bisection: every evaluation counts the bits of an optimal path at the middle of the bracket so far, one over the target raises the lower end and any other lowers the upper; with an exact root the ratio of the ends is the 2^(iterations-1)-th root of the first one; on return the choice is optimal for the returned lambda and each end that moved was moved soundly |
| CostCache.LookSound | internal/coder/quantize.go:413-433 | a lookup keeps the cache sound and answers as a direct evaluation on all that one gives, if the slot's input is the one of this generation |
| CostCache.EveryAnswer | internal/coder/quantize.go:51-57 | in every run of invalidations and lookups, through any number of 16-bit stamp wraparounds, every lookup answers cost, bits and energy as a direct evaluation; when that stops at its limit the energy is the last completed one asked for at that place since the matrix was cleared |
| CostCache.RepeatedLookup | internal/coder/quantize.go:413-433 | until the next invalidation, and unless another question is asked at its place, a repeated lookup is answered from the matrix, whatever an evaluation would say, and changes nothing |
| CostCache.EnergyDetermined | internal/coder/quantize.go:413-433 | the energy of a lookup that misses depends on the evaluation alone, whatever the matrix held, if and only if the evaluation completes |
| CostCache.ZeroValueLookup | internal/coder/quantize.go:413-433 | before the first invalidation a lookup is right for every evaluation if and only if the codebook or the rounding flag is nonzero |
| CostCache.Store.CacheInit | internal/coder/quantize.go:51-57 | bumps the generation, and clears all stamps on wraparound |
| CostCache.Store.QuantizeBandCostCached | internal/coder/quantize.go:413-433 | answers and fills the entry as the cache specification does |
| FftSpec.ReverseTwice | internal/mdct/fft.go:23-40 | bit reversal is an involution |
| FftSpec.BlocksStart | internal/mdct/fft.go:44-50 | the blocks before the first stage are the bit-reversed input |
| FftSpec.StageStep | internal/mdct/fft.go:51-64 | over any ring, one stage turns each pair of neighbouring blocks into one by butterflies with the powers of its root |
| FftSpec.BlocksAreDft | internal/mdct/fft.go:43-65 | over every commutative ring the divide-and-conquer form computes the transform whenever w^(n/2) = -1 |
| FftSpec.DftIsTheSum | internal/mdct/fft.go:10-22 | over every commutative ring that transform is the sum of x[j] * w^(j*k) |
| Rings.ComplexLaws | internal/mdct/fft.go:57-61 | the complex products and sums of a butterfly are those of a commutative ring |
| FftTransform.Fft.Permute | internal/mdct/fft.go:44-50 | the swap loop leaves the bit-reversed samples in place |
| FftTransform.Fft.Stage | internal/mdct/fft.go:51-64 | the butterfly loops take the buffers from one stage to the next |
| FftTransform.Fft.Transform | internal/mdct/fft.go:43-65 | the buffers end as the discrete Fourier transform of what they held |
| SplitRadix.SourceOfSlot | internal/tx/tx.go:244-258 | the split-radix permutation is one-to-one |
| SplitRadix.SlotOfSource | internal/tx/tx.go:244-258 | and onto |
| SplitRadix.GatherBijection | internal/tx/tx.go:244-270 | negated and masked it is a bijection of 0..n-1 with an explicit inverse, for every power of two and both directions |
| SplitRadix.RevtabGather | internal/tx/tx.go:264-270 | the gather map is a permutation of 0..n-1 |
| FixedSqrt.FfSqrt | internal/dec/dequant.go:150-167 | the exact floor square root of every 32-bit number |
| FixedSqrt.FixedSqrt31 | internal/dec/dequant.go:174-201 | for 0 <= x < 2^31 the result r has r^2 < (x+1)*2^31 <= (r+1)^2 + 2^15 without overflow, and r >= 46340 |
| FixedSqrt.NoiseDivisor | internal/dec/dequant.go:102-112 | the normalised divisor lies in 0x4000..0x7fff, so the division is never by zero |
| Primes.Euclid | internal/tables/cbrt_fixed.go:20-33 | a prime that divides a product divides a factor, on which the sieve rests |
| Primes.MultiplicityProduct | internal/tables/cbrt_fixed.go:20-33 | multiplicities of a prime add up over a product |
| CbrtTable.UntouchedIsPrime | internal/tables/cbrt_fixed.go:34-58 | an entry is still 1 when its turn comes if and only if its number is prime |
| CbrtTable.ExtensionProduct | internal/tables/cbrt_fixed.go:34-58 | the table's function is completely multiplicative |
| CbrtTable.ExtensionOfFactors | internal/tables/cbrt_fixed.go:34-58 | however a number is written as a product of primes, its entry is the product of f over them |
| CbrtTable.SweepPowers | internal/tables/cbrt_fixed.go:39-49 | a number's turn in the first phase multiplies in all powers of a prime |
| CbrtTable.SweepOnce | internal/tables/cbrt_fixed.go:50-57 | past the cutoff one pass suffices, since the cutoff squared exceeds the table |
| CbrtTable.DblTableInit | internal/tables/cbrt_fixed.go:34-58 | entry x ends as the multiplicative extension of f at 2x+1, for any table size the cutoff admits |
| CbrtTable.ComputeTable | internal/tables/cbrt_fixed.go:65-80 | entry n is the rounded product of f over the prime factors of n with multiplicity |
| TnsFilter.RefToLpc | internal/dsp/lpc.go:93-106 | the recursion with its swapped buffers yields the direct-form coefficients |
| TnsFilter.ComputeLpcFixed | internal/dec/tns.go:17-28 | the decoder's in-place recursion yields the same coefficients, scaled |
| TnsLattice.LatticeIsDirect | internal/dsp/lpc.go:93-106 | the direct form with those coefficients is the two-error lattice of the reflection coefficients, for every signal and order |
| TnsFilter.AnalyseRegion | internal/coder/tns.go:287-306 | one region is predicted from the unfiltered history, in either direction |
| TnsFilter.SynthesiseRegion | internal/dec/tns.go:56-74 | one region is filtered recursively in place |
| TnsFilter.SynthesisUndoesAnalysis | internal/dec/tns.go:35-77 | the decoder's output is determined by its input: it recovers whatever the encoder filtered |
| TnsFilter.AnalysisUndoesSynthesis | internal/coder/tns.go:265-309 | and the encoder's recovers whatever the decoder filtered |
| TnsLattice.FilterIsLattice | internal/coder/tns.go:287-306 | filtering a region is running that lattice along it, in its direction, from silence |
| TnsLattice.RegionsAre | internal/coder/tns.go:265-285 | a channel's regions are exactly those of its filters with an order and bins: each claims its length of bands from what the ones before it left, down to band 0 |
| TnsFilter.ApplyTns | internal/coder/tns.go:265-309 | all windows, stacked filters, orders and directions of the encoder's filter |
| TnsFilter.ApplyTnsFixed | internal/dec/tns.go:35-77 | the same of the decoder's |
| TnsFilter.FilterAndUndo | internal/dec/tns.go:35-77 | encoder filter then decoder filter give the spectrum back |
| TnsFilter.UndoAndFilter | internal/coder/tns.go:265-309 | decoder filter then encoder filter give the spectrum back |
| RateLoop.EncodeFrameRateLoop | internal/enc/encoder.go:527-932 | whatever sizes the passes come out at, the loop ends at the first pass that settles and at no other: in average-rate mode one within 1.1^4 of the nominal rate, a later one near its target and below the ceiling, or the sixth; the lambda it leaves is the first one with the correction of every pass before; a failure happens only with lambda at its floor and the frame over its limit |
| RateLoop.SettledIsOnRate | internal/enc/encoder.go:878-930 | what settles an average-rate pass puts its size within 1.1^4 of the nominal rate, or near the target from the second pass on, or below the ceiling from the sixth on |
| RateLoop.BoundsAreNear | internal/enc/encoder.go:844-885 | the integer bounds of a pass that needs no more correction are exactly half above the larger of target and rate, and an eighth below the larger of target and three quarters of the rate, under the ceiling |
| RateLoop.RateBitsAre | internal/enc/encoder.go:842-843 | the nominal bits are those of 1024 samples at the bitrate, rounded down, under the ceiling |
| RateLoop.RatioIs | internal/enc/encoder.go:884-891 | the correction squared times the frame is the rate, or within the bounds its fourth power, limited to a tenth around 1 |
| RateLoop.AcceptedFitsAdts | internal/enc/encoder.go:835-932 | every accepted frame fits the 13-bit length of an ADTS header |
| WindowSwitch.Channel.WindowFor | internal/psy/lame.go:198-231 | one frame of the state machine: sequence, shape, grouping and the state held back, with the decision of the lookahead or, without one, of the previous sequence |
| WindowSwitch.Channel.Groups8 | internal/psy/lame.go:205-216 | the grouping loop yields the group lengths of the mask |
| WindowSwitch.TilesFrom | internal/psy/lame.go:205-216 | the group lengths of any mask tile the eight windows |
| WindowSwitch.RunIsLegal | internal/psy/lame.go:34-52 | for every sequence of decisions the window sequences follow each other legally and the groups tile the windows |
| WindowSwitch.SequenceOfAttacks | internal/psy/lame.go:34-52 | over every run the sequence of a frame follows from three decisions: EIGHT_SHORT behind an attack, or for an attack two frames behind another; otherwise LONG_START for its own attack, LONG_STOP two frames behind one, ONLY_LONG without any |
| WindowSwitch.ShortFrames | internal/psy/lame.go:34-52 | the first frame is a LONG_START if and only if it has an attack; a later one is EIGHT_SHORT if and only if the frame before has one, or its own does and the frame before is EIGHT_SHORT |
| WindowSwitch.GroupStarts | internal/psy/lame.go:198-216 | the groups of an EIGHT_SHORT frame start at window 0 and at the zero bits of the mask of the decision one frame earlier |
| WindowSwitch.ApplyWindow | internal/enc/encoder.go:991-1020 | the encoder multiplies each of the 2048 samples by the window value its sequence and shapes call for |
| WindowSwitch.ShortsAgree | internal/enc/encoder.go:1000-1019 | inside a short frame neighbouring windows agree with each other and with the decoder's short window |
| WindowSwitch.RunAgrees | internal/dec/imdct.go:46-85 | at every overlap analysis halves and synthesis window agree in length and shape, except if and only if it is the one after a first frame that is ONLY_LONG |
| WindowSwitch.FirstLongDisagrees | internal/enc/encoder.go:991-1020 | there they really disagree |
| WindowSwitch.SharedWindow | internal/dec/frame.go:239-246 | with a common window it does not matter whose window history the decoder remembers |
| FrameStream.FeedTwice | pcm/frameio.go:157-196 | feeding two chunks is feeding their concatenation |
| FrameStream.ChunkingIrrelevant | pcm/frameio.go:157-196 | however the input is cut, units, failure and carry are the same |
| FrameStream.UnitCount | pcm/frameio.go:239-266 | S samples per channel flushed without a failure gave exactly ceil(S/1024)+1 units |
| FrameUnits.UnitsAreOfInput | internal/enc/encoder.go:312-345 | unit i of a stream, while it is fed and after it is flushed, is what the codec produces after taking in frames 0 to i + 1 of the input bytes in order and producing the units before: the whole frames, the partial one, then silence, for which it flushes; a stream that has not failed has one unit fewer than whole frames |
| FrameStream.FrameEncoder.Encode | pcm/frameio.go:157-196 | the buffering method is the stream specification, whose units `FrameUnits.UnitsAreOfInput` gives from the input bytes; it reports all bytes consumed, or on a failure those before the frame that failed |
| FrameStream.StopUnique | pcm/frameio.go:152-196 | a failure determines that byte count |
| FrameStream.FrameEncoder.Flush | pcm/frameio.go:211-266 | encodes the partial frame, drains, and is idempotent |
| AdtsHeader.HeaderIsFields | adts.go:41-52 | the seven header bytes are the fields of section 6.2 of ISO/IEC 13818-7 in order |
| AdtsHeader.AppendHeader | adts.go:20-52 | appends the header, or refuses exactly the rates without an index, the channel counts outside 1..7 and the lengths the 13-bit field cannot hold |
| AdtsHeader.RateIndexUnique | aac.go:38-51 | every rate of the table has one index |
| AdtsHeader.ParseAdts | internal/dec/adts.go:39-76 | the field-by-field parser with its checks in order, and where it stops |
| AdtsAny.AnyHeaderReads | internal/dec/adts.go:39-76 | any header with a table rate and a length of at least its own, whatever its other fields, parses to exactly its fields, each from its own place |
| AdtsHeader.HeaderRoundTrip | internal/dec/adts.go:39-76 | a written header parses back to what was written, whatever follows |
| AdtsHeader.AppendedParses | adts.go:20-52 | whatever AppendHeader accepts, the decoder's parser gives back rate, channels and length |
| AudioConfig.ParseAscBytes | internal/dec/asc.go:49-160 | the two-pass parser with its scan for an SBR or PS extension, and its errors in order |
| AudioConfig.AcceptedIsConfig | internal/dec/asc.go:49-160 | whatever is accepted is an AAC-LC mono or stereo configuration that the decoder does not refuse, with neither SBR nor PS |
| AscExtension.ScanIsFirst | internal/dec/asc.go:103-121 | the scan reads the first extension that has more than 15 bits, and no other |
| AscExtension.ScanFindsNone | internal/dec/asc.go:103-121 | without one the scan leaves SBR and PS open |
| AscExtension.WithExtension | internal/dec/asc.go:49-160 | a written description with an extension reads back its SBR flag and rate and its PS flag, and is refused for PS, which SBR alone implies in mono, then for SBR, and otherwise accepted |
| AscExtension.HeadRefused | internal/dec/asc.go:49-94 | what is refused for object type, rate index or channel configuration alone, and with which error |
| AscExtension.EscapesReadBack | internal/dec/asc.go:22-44 | an object type behind the escape and a rate behind index 15 read back from their six and 24 bits |
| AudioConfig.AscRoundTrip | asc.go:5-13 | the decoder reads rate and channels back from the two bytes an encoder describes itself with |
| AdtsFramer.ScanFindsFirst | pcm/decoder.go:193-241 | the resynchronisation stops at the first position that is not rejected: a trusted or chained header, a corrupt tail, or the end |
| AdtsFramer.Framer.SyncAdts | pcm/decoder.go:193-241 | the scanning loop is that scan |
| AdtsFramer.Framer.ConfirmChain | pcm/decoder.go:259-295 | a header chains if and only if the next one follows it or the input ends with it |
| AdtsFramer.FramerReturnsUnits | pcm/decoder.go:327-342 | on a concatenation of framed units each call returns the next unit, then a clean end |
| AdtsFramer.ReadFrames | pcm/decoder.go:419-447 | reading the encoder's framed stream returns exactly its units and ends cleanly |
| DecChannel.DecodeIcsInfo | internal/dec/syntax.go:17-65 | shifts the window history and fills the channel with what the pure parser reads, or fails with the same error |
| DecSections.DecodeBandTypes | internal/dec/syntax.go:71-105 | the array prefix of the transmitted bands ends as the parsed band types |
| DecSections.DecodeScalefactors | internal/dec/syntax.go:110-156 | the array prefix ends as the parsed scalefactor offsets, all three chains and both clips included |
| DecSections.DequantScalefactors | internal/dec/dec.go:156-183 | the array prefix ends as the fixed-point scalefactors of the parsed ones |
| DecSections.BandsFit | internal/dec/syntax.go:80-102 | group times max_sfb plus band stays below 121, within the 128-entry arrays |
| DecTools.DecodePulses | internal/dec/syntax.go:170-189 | one to four pulses with positions inside the spectrum, or invalid data |
| DecPulses.PulsesRoundTrip | internal/dec/syntax.go:170-189 | one to four pulses written as distances and heights from a band on read back exactly |
| DecTools.DecodeTns | internal/dec/syntax.go:195-233 | the filters of all windows |
| DecTools.DecodeGainControl | internal/dec/syntax.go:239-256 | skips exactly the bits of gain control |
| DecSkip.GainSkipped | internal/dec/syntax.go:239-256 | written gain control data of up to three bands is skipped exactly, in the windows and widths of each sequence |
| DecCoefs.DecodeUQuad | internal/dec/spectrum.go:93-114 | four magnitudes with the shifting sign register |
| DecCoefs.DecodeUPair | internal/dec/spectrum.go:132-147 | two magnitudes with the packed sign alignment |
| DecCoefs.DecodeEscPair | internal/dec/spectrum.go:152-195 | escape pairs; more than eight leading ones is invalid data |
| DecCoefs.LeadOnesIs | internal/dec/spectrum.go:170-173 | counting leading zeros of the complemented 32-bit peek counts the leading ones of the input |
| DecSpectrum.DecodeBand | internal/dec/spectrum.go:75-195 | one band of one window in place, nothing else touched |
| DecSpectrum.DecodeAllGroups | internal/dec/spectrum.go:23-66 | the whole coefficient array, cleared first |
| DecSpectrum.BandTypesNoReserved | internal/dec/syntax.go:83-85 | the reserved band type never gets past the section parser |
| DecSpectrum.AddPulses | internal/dec/spectrum.go:201-221 | adds the pulses, looking bands past max_sfb up in whatever earlier units left |
| DecSpectrum.StalePulses | internal/dec/spectrum.go:201-221 | stale band types and scalefactors past max_sfb change no coefficient below the end of the last transmitted band |
| DecPulses.PulsesAt | internal/dec/spectrum.go:201-221 | a coefficient is raised by the pulses at its position, in order, if and only if its band is transmitted, not noise and not scaled by zero; no other changes |
| DecPulses.PulsedIs | internal/dec/spectrum.go:209-218 | a pulse moves a coefficient away from zero by its height, and zero downwards |
| DecStream.DecodeIcs | internal/dec/frame.go:182-230 | whatever the channel held before, it ends up showing the parsed symbols, or the call fails with the parser's error |
| DecElements.DecodeCpe | internal/dec/frame.go:235-259 | both channels, the M/S data, and the window history of a pair, common window included |
| DecElements.DecodeMidSideStereo | internal/dec/frame.go:265-277 | the mask, read or all ones |
| DecBlock.SkipDataStreamElement | internal/dec/frame.go:281-295 | skips exactly the element or fails |
| DecBlock.SkipFillElement | internal/dec/frame.go:325-340 | skips exactly the element, fails, or reports SBR |
| DecSkip.DataSkipped | internal/dec/frame.go:281-295 | a written data stream element, aligned or not, of up to 510 bytes is skipped exactly |
| DecSkip.FillSkipped | internal/dec/frame.go:325-345 | a written fill element of up to 269 bytes without an SBR payload is skipped exactly |
| DecSkip.FrameAmongFillers | internal/dec/frame.go:86-177 | a written frame with any number of such elements before and behind its audio element decodes to the same element, and the loop stops behind them |
| DecBlock.DecodeFrameGa | internal/dec/frame.go:86-177 | the element loop with its duplicate and allocation checks is the pure one; stale presence is cleared, the history before the unit is saved, and the overlap memory is not touched |
| DecDequant.DequantAgree | internal/dec/dequant.go:211-252 | dequantization consumes no coefficient its bands do not cover |
| DecDequant.SeenCovers | internal/dec/dequant.go:211-252 | a long window's bands end with the last transmitted one |
| DecDequant.NoiseBand | internal/dec/dequant.go:226-236 | fills a band from the noise generator and advances it once per coefficient |
| DecDequant.DequantChannel | internal/dec/dequant.go:211-252 | the spectrum depends on the unit's own symbols and the noise generator alone |
| DecBands.WalkMeets | internal/dec/dequant.go:211-252 | the walk over groups, bands and windows meets every coefficient below the last transmitted band of its window exactly once, in the (group, band) the window and the band edges say, and no other |
| DecBands.GroupOfIs | internal/dec/dequant.go:211-252 | the group a window is counted to is the one whose predecessors hold fewer windows and which, with them, holds more |
| DecBands.SpectrumAt | internal/dec/dequant.go:211-252 | each coefficient is scaled by its own band's scale, noise with the generator's next output in walk order, or zero |
| DecBands.RandomsAre | internal/dec/dequant.go:226-236 | raw noise is the generator's successive outputs, each used once |
| DecBands.NextRandom | internal/dec/dequant.go:35-37 | the generator's next output is the 32-bit word congruent to the multiply and add |
| DecStereo.ApplyMidSideStereo | internal/dec/stereo.go:13-35 | sum and difference in exactly the bands the mask selects and neither channel fills otherwise |
| DecStereo.ApplyIntensityStereo | internal/dec/stereo.go:44-71 | intensity bands of the second channel from the first, with the mask's sign |
| DecBands.PairSpectraAt | internal/dec/stereo.go:13-71 | each coefficient of a pair: sum and difference where the mask selects a band coded in both channels, the first channel scaled in an intensity band of the second, and otherwise unchanged |
| DecBands.IntensitySign | internal/dec/stereo.go:55-61 | the first intensity codebook takes the first channel as it is and the second negates it; a set mask bit turns that round when M/S is on |
| DecBands.ScalesComeBack | internal/dec/dec.go:156-183 | a written scalefactor comes out as the scale of its band: negated, from 100 down for intensity, from -100 down for noise |
| DecImdct.DspState.ImdctAndWindowing | internal/dec/imdct.go:37-103 | samples and overlap memory are those of `DecRender.Output` and `DecRender.Saved` of the transformed spectrum, the old memory and the window pair, whatever the scratch buffers held |
| DecWindows.HeadWindow | internal/dec/imdct.go:46-85 | however samples and window values are multiplied, the overlap with the frame before is that of the whole half under the synthesis window of the two sequences and the earlier shape, and a frame without short blocks is nothing else |
| DecWindows.InnerWindows | internal/dec/imdct.go:74-96 | the eight short blocks overlap each other, on into the overlap memory, under the short slope of the frame's own shape |
| DecWindows.TailKept | internal/dec/imdct.go:89-102 | the second half of the last block is kept unwindowed, and the memory behind it untouched |
| DecWindows.TransformedIs | internal/dec/imdct.go:57-64 | short block n is the transform of its own 128 coefficients |
| DecWindows.FixedIsNeutral | internal/fdsp/fdsp.go:18-33 | the rounded fixed-point products leave samples alone where the window is 0 and 1, so they are such a multiplication |
| DecWindows.DecoderMatches | internal/dec/imdct.go:46-85 | over every run a decoder that follows the encoder's windows overlaps each frame under the window the encoder rose along, the reverse of the one it fell along before, but for the overlap after a first ONLY_LONG frame |
| DecImdct.ClipOutput | internal/dec/recon.go:99-116 | scales, clamps and biases every sample in place |
| DecPcm.SampleIsNearest | internal/dec/recon.go:99-116 | scaling, clamping, biasing and taking two bytes gives the sample rounded to the nearest integer and saturated to 16 bits |
| DecPcm.TnsLimits | internal/dec/tns.go:35-55 | noise shaping works with the band limit and the edges of the frame's own window length, and leaves a channel without it alone |
| DecPcm.UnitPcm | internal/dec/decode_s16.go:52-108 | the bytes of a unit are its samples so rounded, left before right in a pair, under the window history the unit before left; the next unit finds this one's sequences and shapes |
| DecRecon.DequantElement | internal/dec/recon.go:34-56 | dequantization and stereo tools of one element in order |
| DecRecon.RenderElement | internal/dec/recon.go:58-87 | TNS, transform, overlap and clipping of one element |
| DecRecon.RenderGrid | internal/dec/recon.go:58-88 | the walk over the grid renders the present element exactly once and no other |
| DecDecoder.Decoder.Configure | internal/dec/dec.go:280-326 | refuses what it cannot decode and changes nothing then; otherwise the state is the fresh one, whatever the reused memory held |
| DecSession.ConfigAccepted | internal/dec/dec.go:280-326 | a configuration is accepted if and only if it is AAC-LC at one of the 13 table rates with frames of 1024 and one or two channels |
| DecDecoder.Decoder.ResetAdts | internal/dec/dec.go:333-338 | forgets the configuration |
| DecDecoder.Decoder.ResetRaw | internal/dec/dec.go:343-353 | refuses a description without any change, or starts from the fresh state of the configuration it describes |
| DecDecoder.Decoder.RestoreWindowHistory | internal/dec/frame.go:67-79 | puts the saved window pairs back |
| DecDecoder.Decoder.ParseUnit | internal/dec/frame.go:56-59 | a raw_data_block that fails anywhere leaves the observable state as it was |
| DecDecoder.Decoder.DecodeFrame | internal/dec/frame.go:24-61 | header, configuration check and block: the same errors as the specification |
| DecDecoder.Decoder.Reconstruct | internal/dec/recon.go:31-89 | turns the parsed unit into samples and the next state |
| DecDecoder.Decoder.AppendS16 | internal/dec/decode_s16.go:28-34 | the effect of one unit, with the first header latched |
| DecFrameDecoder.RenderLength | internal/dec/decode_s16.go:52-108 | a rendered unit has exactly 1024 samples per channel, two bytes each |
| DecFrameDecoder.StepFromEffect | pcm/framedecoder.go:98-139 | rolling the configuration back turns the effect below into one where a failed unit, or one without audio, changes nothing |
| DecFrameDecoder.FrameDecoder.DecodeFrame | pcm/framedecoder.go:98-139 | PCM or error and observable state afterwards are those of one unit of a session; on an error dst is unchanged |
| DecFrameDecoder.FrameDecoder.Reset | pcm/framedecoder.go:168-177 | back to the state of a fresh session |
| DecSession.BlockSuits | internal/dec/frame.go:86-177 | whatever the element loop accepts fits the configured layout and can be rendered |
| DecSession.BlockStart | internal/dec/frame.go:24-61 | a unit's block starts behind the seven header bytes, or behind the two checksum bytes as well if and only if the header says there are any |
| DecSession.FailuresLeaveNoTrace | pcm/framedecoder.go:76-97 | over any sequence of units the PCM of those that succeed is the PCM of a decoder fed only those, all of which succeed there, and both end in the same state |
| DecSession.ConfigurationIsFirstSuccess | internal/dec/frame.go:37-53 | an ADTS session takes its configuration from the first unit that decodes, and refuses others afterwards |
| EndToEnd.RawUnitDecodes | internal/dec/frame.go:24-61 | a bare unit the encoder wrote decodes to exactly its element, rendered from the state before |
| EndToEnd.AdtsUnitDecodes | internal/dec/frame.go:24-61 | so does an ADTS unit, on a fresh decoder and on one that runs with its configuration |
| EndToEnd.HeaderDecides | internal/dec/frame.go:24-61 | behind any well-formed header: more than one block is refused, a fresh decoder refuses all but AAC-LC in one or two channels, a running one any change of its configuration; otherwise decoding starts behind the header and its checksum |

## Left out

- SIMD and assembly kernels and their dispatch: `TrellisStep.MinIdxOfSumRows` is the specification of the sliding-minimum kernel, filled by a plain loop.
- Float32 rounding, fused multiply-add barriers and bit identity with FFmpeg: costs, filters and tables are over `real`.
- Quantization of coefficients: quantized integers are inputs of the writer, and the codebook a band starts from is assumed to carry them, as the choice of the least codebook ensures.
- Psychoacoustics, attack detection, stereo, noise-substitution and TNS decisions, and the two-loop and fast quantizer searches: their results are arbitrary inputs.
- Concrete Huffman tables, band tables and window sample values: parameters constrained by prefix-freeness, packing, and band edges that rise in multiples of four.
- MDCT and IMDCT identities, and the fixed-point arithmetic of the reconstruction kernels beyond the square root, the noise divisor, the noise generator, butterflies and clipping.
- io.Reader and io.Writer plumbing, transport errors and pooling: the framer works on the whole input as a byte sequence, and reused decoder memory is two elements that are cleared on configuration.
- HE-AAC, coupling, program config and dynamic range: refused or skipped as in the source, not decoded.
- ADTS headers carrying a CRC: the 16 bits are skipped as in the source, the CRC is not checked by either side.
- FixedSqrt.FixedSqrt31: models fixedSqrt for bits = 31, the only value the decoder passes.
- TnsFilter.ComputeLpcFixed: works over `real` with the Q26 scale made explicit, so the rounding of the Q26 products is not modelled; both filters are compared with equal band caps.
- CostCache.LookSound: says nothing of the energy when the evaluation stops at its limit; `CostCache.EveryAnswer` does.
- FinalPass.FinalIs: takes the scalefactors of the bands to be coded to be in 0..255, as the search sets them. A band that is not zero but has no coefficients (`internal/coder/nmr.go:539`) keeps the index of an earlier frame; what the pass then delivers is `StaleBands.FinalAny` and `StaleBands.StaleBreaks`, and whether the psychoacoustic model lets such a band through is not modelled.
- RateLoop.EncodeFrameRateLoop: the square root is any function with the order properties of a root, and a pass is only the frame size it comes out at.
- SectionCoder.Coder.CodebookTrellisRate: the bits of each band in each codebook are given numbers bounded by 28 per coefficient, not computed from coefficients.
- DecDecoder.Decoder.Configure: the two channel elements exist from the start and a flag says whether the layout has them, so the identity of freshly allocated memory is not modelled.
- TNS side information: parallel arrays of counts, lengths, orders, directions and coefficients are one list of filter records per window on both sides, and index compression works on a local copy in the encoder.
- Stats, error message texts, one-shot wrappers and the raw-stream reader.
