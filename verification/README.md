# NearBy Talk: the identity code, its coder, and three protocols beside it

NearBy Talk saves a user's identity as a QR code and loads it back from a picture. This project models
that codec module by module and proves that it works: a text goes in, a module matrix comes out, the
matrix is damaged, and the same text is read again. Three other parts of the program that rest on
delicate state are modelled too: the SHA-1 plugin, the callback lists and deferreds of jQuery, and the
protocol that keeps every request thread away from the database while its password changes.

**The coder** (`GF256` to `ReedSolomon`). The field of 256 elements is defined as carry-less
multiplication modulo 0x11D; the shift register and the searches that fill the two tables are shown to
compute its powers and logarithms, so `gmult` and `ginv` are its product and inverse. On that field
stands the theory the coder needs: recurrences and Massey's bound, power sums and the Vandermonde
argument, the locator polynomial, the evaluator and Forney's formula. The class `ReedSolomon` keeps the
fields and the array loops of the source; every loop is proved against that theory, up to `Decode`,
which restores every word within half the parity bytes of a codeword.

**The QR pipeline** (`BitStream` to `QRCode`). Each stage is proved against its own meaning: the 24-bit
window against bit sequences, segments against the bit form of their text, the dealing of block indices
against a bijection between places and indices, the zigzag walk against a bijection between visits and
modules, the writers of function patterns against the map that marks them. What the stages agree on is
fixed apart from them: `Blocks` says in which order indices are dealt, `WalkOrder` by coordinates which
module holds which bit, `FreeModules` counts the modules of every version exactly, `Centres` places the
alignment patterns, and `TableLaws` gives the laws of the tables, the masks and the codes, and the
standard's examples of segments. `EncodeThenDecode` joins them: segments are accepted exactly if they
fit, and any damage that stays within half the error correction words of each block, and is arbitrary on
function modules, leaves the text unchanged.

**The protocols.** `CallbackLists` runs programs whose callbacks add, remove, disable, lock, empty or
fire lists while lists are being fired; `Callbacks` runs the same programs as the source does, with
nested calls and loops on objects, and shows that the machine comes through the same steps.
`CallbackTurns` and `CallbackRounds` say of lists with any options what each firing calls, with which
data, and in which order firings follow one another. `CallbackQueues` proves that a "once memory" list is
a queue, `CallbackFates` what becomes of every callback added to it, `CallbackEnding` that programs on
lists with "once" come to an end, so that the callbacks do run. `Deferreds` proves that every one of any
number of deferreds settles once, whatever the handlers of the others do, `Notifications` that a notify
reaches the progress handlers, and `LostNotifies` which do not. `CallbackEmptying`, `CallbackFirings` and
`CallbackReviving` say what `empty` does to a list that is fired, and to one that was disabled.
`Blocking` interleaves any number of request
threads and password changers, `Releases` says when the write lock is given up, and `KeyChanges` that a
change does change the key, and that the key is always that of the last change. `Numbers` and `Sha1`
follow the plugin on signed numbers; `BitVectors` and `Sha1Example` work out the digest of "abc".

Five properties that one might expect are false of the code. Each has a witness and its exact condition.

- An eight-bit text with a character past 255 is accepted but can never be read back
  (`AcceptedButLost`). Accepted segments that fit are what some data codewords are read as if and only if
  their text has no such character (`ReadableIff`), and no matrix at all reads as a text with one
  (`QRCode.Decode`).
- A callback added while a list is fired need not be called (`NeverCalled`). After `empty` the loop keeps
  its index, so callbacks added next are passed by exactly as long as fewer were added than the loop had
  passed places (`AddedAfterEmpty`, `CalledAfterEmpty`), and only then (`PassedOnlyAfterEmpty`).
- A disabled list may call callbacks again (`RevivedCalls`, `RevivedWhileFiring`): `empty` gives it a
  list. It does so only if it is emptied at a time when it has never been fired or is being fired, and
  calls only what is added after that (`CallsOnlyIfReopened`). Conversely, when the program has ended, a
  callback added after `empty`, before a firing ended, and not taken out again, has been called if and
  only if its place was not passed and the list was being fired when it was emptied, or remembered its
  firing, or was fired for the first time later (`CalledExactlyIf`); emptied before it was ever fired,
  the list goes on as a new list (`EmptyRevives`).
- A notify before a deferred settles need not reach any progress handler (`NotifyLost`). One that finds no
  handler running reaches them all (`NotifyReaches`); one made while they run waits, and each that comes to
  its turn reaches them all (`StackedFiring`). When the deferred settles, exactly those that still wait are
  dropped (`SettlingDropsWaiting`).
- A password change may end without releasing the write lock (`LockCanStay`). It releases it if and only
  if no other attempt to block has failed since it blocked (`ReleasesIff`, `LockFreeIff`), so always if
  there is one changer (`OneChangerReleases`).

## Model

| member | source | states |
|---|---|---|
| QRCoder.EncodeThenDecode | WebRoot/js/qrcodedecode.js:165-267 | Whole-symbol round trip: for every list of encodable segments, version, level, penalty function and damage, the segments are accepted exactly if their bits fit the data codewords; then the matrix carries their text, and if each block has at most half its error correction words damaged, a second coder reads exactly the concatenated text |
| QRCoder.QRCode.Encode | WebRoot/js/qrcodedecode.js:261-267 | Terminator, padding, error correction and mask choice leave a matrix that carries the text of all segments added before, under the mask stored |
| QRCoder.QRCode.Decode | WebRoot/js/qrcodedecode.js:395-403 | Reading a matrix of known version, level and mask yields the text of every symbol of which it is a damaged copy; no matrix yields a character past 255 |
| QRCoder.EncodeNew | WebRoot/js/qrcodedecode.js:204-206 | A new coder accepts a list of segments exactly if their bits fit, and then produces a matrix that carries their text |
| QRCoder.DecodeNew | WebRoot/js/qrcodedecode.js:395-403 | A new coder reads any damaged copy of a text-carrying matrix as that text |
| QRCoder.AddAll | WebRoot/js/qrcodedecode.js:253-255 | Segments added one by one are all accepted if and only if their total length fits the data codewords |
| Symbols.DamagedIsRecoverable | WebRoot/js/qrcodedecode.js:1787-1824 | A damaged matrix that carries a text shows codewords that differ from encoded blocks of some data words, which read as that text, in at most half the parity of each block |
| Symbols.RenderedWords | WebRoot/js/qrcodedecode.js:918-997 | Reading the data modules of a rendered matrix gives back exactly the codewords that were rendered, for every version, level and mask |
| Codewords.PatchingRestores | WebRoot/js/reedsolomon.js:181-242 | Bounded-distance decoding: the three stages' results patch a word within the radius of a codeword into that codeword, at exactly the damaged places |
| Codewords.DecodingRestores | WebRoot/js/reedsolomon.js:181-242 | Inside the radius none of the three refusals of correctErrors applies and the patched word is the codeword |
| Codewords.ZeroSyndromesMeanCodeword | WebRoot/js/reedsolomon.js:111-116 | A word within distance n of a codeword whose syndromes all vanish is that codeword, so leaving it alone is right |
| Codewords.RootPlacesAreErrors | WebRoot/js/reedsolomon.js:311-331 | The places found by the root search are exactly those where the word differs from the codeword, and their number is the length of the recurrence |
| Codewords.RootPlacesBounded | WebRoot/js/reedsolomon.js:311-331 | For any polynomial that is not zero, inside the radius or not, the places found are no more than its degree |
| Codewords.SyndromesOfError | WebRoot/js/reedsolomon.js:156-177 | The syndromes of a damaged word are the power sums of its error values over distinct locators |
| Codewords.CorrectionIsError | WebRoot/js/reedsolomon.js:215-239 | The value added at each located place is the difference of the two words there |
| Codewords.ParityUnique | WebRoot/js/reedsolomon.js:79-102 | At most one choice of parity bytes completes a message to a codeword |
| ReedSolomonCoder.ReedSolomon.Decode | WebRoot/js/reedsolomon.js:106-120 | For every word of at most 255 bytes and every codeword within floor(n/2) of it, decoding is marked corrected and returns that codeword without its parity |
| ReedSolomonCoder.ReedSolomon.Encode | WebRoot/js/reedsolomon.js:79-102 | The register's bytes complete any message to a codeword (all n syndromes zero) |
| ReedSolomonCoder.ReedSolomon.FeedMessage | WebRoot/js/reedsolomon.js:86-97 | After the message the register holds message(x)*x^n at every root of the generator |
| ReedSolomonCoder.ReedSolomon.FeedRegister | WebRoot/js/reedsolomon.js:90-97 | One in-place step makes every cell the next cell of the shift register with this feedback byte |
| ReedSolomonCoder.ReedSolomon.CalculateSyndroms | WebRoot/js/reedsolomon.js:156-177 | The Horner loops evaluate the word at the n roots; the count is zero exactly if all vanish |
| ReedSolomonCoder.ReedSolomon.BerlekampMassey | WebRoot/js/reedsolomon.js:246-307 | psi is a recurrence of least length for the syndromes, psi[0] is 1, and omega is their product cut off at degree n |
| ReedSolomonCoder.ReedSolomon.MasseyRounds | WebRoot/js/reedsolomon.js:263-290 | The invariant holds after every round, with k == L-1 throughout |
| ReedSolomonCoder.ReedSolomon.MasseyRound | WebRoot/js/reedsolomon.js:265-289 | One round updates psi, D, k and L in place as Massey's algorithm prescribes for the discrepancy found |
| ReedSolomonCoder.ReedSolomon.FindRoots | WebRoot/js/reedsolomon.js:311-331 | error_locs lists exactly the i in 0..254 with psi(z^-i) = 0, highest first, without repetition, and n_errors is their number |
| ReedSolomonCoder.ReedSolomon.LocateErrors | WebRoot/js/reedsolomon.js:183-184 | For every word, damaged in any way, the two searches leave a shortest recurrence for its syndromes, its evaluator and exactly its root places, and n_errors is at most the length of the recurrence |
| ReedSolomonCoder.ReedSolomon.CorrectErrors | WebRoot/js/reedsolomon.js:181-242 | The word is patched exactly if there is a place, not too many, and none out of scope; otherwise it stays as it was |
| ReedSolomonCoder.ReedSolomon.PatchErrors | WebRoot/js/reedsolomon.js:215-239 | The loop adds Forney's correction at each place found and nothing elsewhere |
| ReedSolomonCoder.ReedSolomon.ErrorValue | WebRoot/js/reedsolomon.js:220-234 | The two evaluation loops and the division give the correction at one place |
| ReedSolomonCoder.ReedSolomon.MultPolys | WebRoot/js/reedsolomon.js:379-400 | Scaling, shifting in place and adding rows computes the exact product, missing entries of the second factor counting as zero |
| ReedSolomonCoder.ReedSolomon.ShiftRow | WebRoot/js/reedsolomon.js:393-394 | The in-place shift, from the top down, moves every entry by i places and loses none |
| ReedSolomonCoder.ReedSolomon.GenPoly | WebRoot/js/reedsolomon.js:128-152 | The loop of products yields the product of (x + z^i) for i below n, zero padded |
| ReedSolomonCoder.ReedSolomon.ComputeDiscrepancy | WebRoot/js/reedsolomon.js:339-346 | The sum is the value of the recurrence on the window that ends at position n |
| ReedSolomonCoder.ReedSolomon.InitExpTable | WebRoot/js/reedsolomon.js:408-440 | The eight-cell shift register fills the table with the powers of z, twice over |
| ReedSolomonCoder.ReedSolomon.InitLogTable | WebRoot/js/reedsolomon.js:442-450 | The searches find the discrete logarithm of every nonzero byte |
| ReedSolomonCoder.ReedSolomon.Gmult | WebRoot/js/reedsolomon.js:455-460 | Table lookup equals the carry-less product modulo 0x11D |
| ReedSolomonCoder.ReedSolomon.Ginv | WebRoot/js/reedsolomon.js:463-465 | Table lookup equals the field inverse; 0 gives 1 |
| GF256.OrderIs255 | WebRoot/js/reedsolomon.js:408-452 | z has order exactly 255, so the exponent table has no early repetition |
| GF256.EveryNonzeroIsPower | WebRoot/js/reedsolomon.js:442-450 | Every nonzero byte is a power of z, so every search for a logarithm succeeds |
| GF256.MulAssoc | WebRoot/js/reedsolomon.js:455-460 | The product is associative |
| GF256.MulComm | WebRoot/js/reedsolomon.js:455-460 | The product is commutative |
| GF256.NoZeroDivisors | WebRoot/js/reedsolomon.js:456 | A product is zero exactly if a factor is, the case gmult singles out |
| Generator.GeneratorRoots | WebRoot/js/reedsolomon.js:128-152 | The generator polynomial's roots are exactly z^0 .. z^(n-1) |
| Generator.GeneratorMonic | WebRoot/js/reedsolomon.js:128-152 | The generator polynomial has leading coefficient 1 at degree n |
| Generator.ProductValue | WebRoot/js/reedsolomon.js:379-400 | If the array is long enough, the product's value is the product of the values: no term is lost |
| Generator.RegisterStep | WebRoot/js/reedsolomon.js:90-97 | One register step multiplies what is held by the root and adds the message byte |
| BerlekampMassey.RoundKeepsInvariant | WebRoot/js/reedsolomon.js:263-290 | Every round keeps: psi[0] = 1, degree at most L <= n, every window annihilated, L least possible, D auxiliary |
| BerlekampMassey.CorrectedGenerates | WebRoot/js/reedsolomon.js:269-272 | Adding d times D makes psi generate one syndrome more |
| Recurrence.MasseyBound | WebRoot/js/reedsolomon.js:274-282 | If one recurrence fails at position n and another does not, their lengths add up to more than n: no shorter length than n+1-L can do |
| Locators.ShortestHasLocatorRoots | WebRoot/js/reedsolomon.js:246-290 | With at most half as many errors as syndromes, a shortest recurrence has the error locators as its only roots |
| Locators.Vandermonde | WebRoot/js/reedsolomon.js:156-177 | Distinct locators with vanishing power sums have zero values |
| Locators.Forney | WebRoot/js/reedsolomon.js:215-239 | At the inverse of a locator, omega is the error value times the even part of psi, and that is not zero |
| Locators.EvenPartIsQuotient | WebRoot/js/reedsolomon.js:228-232 | The sum over even powers of psi at the inverse of a locator is the quotient of psi by that locator's factor, evaluated there |
| Locators.EvenPartIsDerivative | WebRoot/js/reedsolomon.js:228-232 | At a root of a polynomial the sum over its even powers is the formal derivative times the root |
| Locators.ForneyDenominator | WebRoot/js/reedsolomon.js:228-232 | The denominator of a correction is psi' at the inverse of the locator, times that inverse |
| BitStream.PackedAppends | WebRoot/js/qrcodedecode.js:414-425 | Packing a value into a stream whose bits from the position on are zero appends exactly its bits, and leaves zeros behind them |
| BitStream.ExtractReads | WebRoot/js/qrcodedecode.js:1638-1648 | Extraction returns the value of the bits at the position, for any alignment |
| BitStream.ExtractFinds | WebRoot/js/qrcodedecode.js:1638-1648 | What was packed at a position is what is extracted there |
| QRCoder.QRCode.AppendBits | WebRoot/js/qrcodedecode.js:414-425 | The window's three assignments, on 32-bit numbers, append the value's bits to a clean stream |
| QRCoder.QRCode.AddNumeric | WebRoot/js/qrcodedecode.js:470-502 | Accepts exactly the digit strings; appends the count and the digits in groups of three, two or one |
| QRCoder.QRCode.AddAlphaNum | WebRoot/js/qrcodedecode.js:436-452 | Accepts exactly the texts over the 45-character alphabet; appends the count, pairs and a single rest |
| QRCoder.QRCode.Add8bit | WebRoot/js/qrcodedecode.js:455-467 | Accepts anything; appends the count and the characters if all of them are below 256; for any others the bytes are those of packing each code in eight bits, with what is past eight bits added to the byte before |
| QRCoder.QRCode.AddText | WebRoot/js/qrcodedecode.js:412-534 | A segment is accepted exactly if mode and characters are supported and the stream still fits; its bits are then appended, and its length fits the count field |
| QRCoder.QRCode.EncodeAddText | WebRoot/js/qrcodedecode.js:253-255 | An accepted encodable segment is held behind those already there |
| QRCoder.QRCode.EncodeInit | WebRoot/js/qrcodedecode.js:220-244 | A coder starts with an empty clean stream and the block layout of its version and level |
| QRCoder.QRCode.AppendPadding | WebRoot/js/qrcodedecode.js:538-544 | Bytes below the end of the stream stay; behind it the pad bytes alternate up to the data codewords |
| QRCoder.QRCode.FinishData | WebRoot/js/qrcodedecode.js:262-263 | Terminated and padded, or cut off where they end, the data codewords read as the text of the segments |
| Symbols.PaddedReads | WebRoot/js/qrcodedecode.js:538-544 | However terminator and padding fall, the segments are read back from the data codewords |
| Segments.SegmentsRoundTrip | WebRoot/js/qrcodedecode.js:1634-1784 | Bits of any segments, then a terminator or fewer than five bits, are read as the texts of all segments in order |
| Segments.SegmentRoundTrip | WebRoot/js/qrcodedecode.js:1758-1772 | One segment is read back and reading goes on right behind it |
| Segments.NumericRoundTrip | WebRoot/js/qrcodedecode.js:1702-1737 | Any digit string is read back from its groups |
| Segments.AlphaNumRoundTrip | WebRoot/js/qrcodedecode.js:1674-1698 | Any alphanumeric text is read back from its pairs |
| Segments.EightBitRoundTrip | WebRoot/js/qrcodedecode.js:1651-1671 | Any text of characters below 256 is read back |
| Segments.PayloadBitsLength | WebRoot/js/qrcodedecode.js:1862-1873 | The bits of a text number what the capacity arithmetic assumes |
| Segments.ReadBelowByte | WebRoot/js/qrcodedecode.js:1634-1784 | Nothing that is read, from any bytes, has a character past 255 |
| Segments.AcceptedButLost | WebRoot/js/qrcodedecode.js:455-467 | A text with the character 256 is accepted in eight-bit mode, and no bytes are read as that text |
| Symbols.ReadableIff | WebRoot/js/qrcodedecode.js:455-467 | Accepted segments that fit a symbol are what some data codewords of it are read as, if and only if no character of their text is past 255 |
| Segments.CapacityExact | WebRoot/js/qrcodedecode.js:1852-1879 | n characters of a mode pass the length test of a symbol if and only if n is at most getDataCapacity |
| Segments.CountFits | WebRoot/js/qrcodedecode.js:2058-2072 | A length that passes the test always fits its count field |
| QRCoder.QRCode.GetVersionFromLength | WebRoot/js/qrcodedecode.js:1883-1891 | Returns the least version in which the text fits, and fails exactly if none does |
| QRCoder.QRCode.ExtractData | WebRoot/js/qrcodedecode.js:1743-1772 | The loops read what the segment-wise reading of the bytes is, or fail on a mode that is not supported; no character read is past 255 |
| QRCoder.QRCode.ExtractNumeric | WebRoot/js/qrcodedecode.js:1702-1737 | The loops read the count and then that many digits |
| QRCoder.QRCode.ExtractAlphaNum | WebRoot/js/qrcodedecode.js:1674-1698 | The loops read the count and then that many characters in pairs |
| QRCoder.QRCode.Extract8bit | WebRoot/js/qrcodedecode.js:1651-1671 | The loops read the count and then that many bytes |
| QRTables.AllShapes | WebRoot/js/qrcodedecode.js:2254-2435 | For all 40 versions and 4 levels the blocks use up all codewords exactly, and no block exceeds 255 words |
| Blocks.IndexInjective | WebRoot/js/qrcodedecode.js:1952-1971 | Every place in a block has an index below the number of codewords, from which the place is recovered |
| Blocks.IndexSurjective | WebRoot/js/qrcodedecode.js:1952-1971 | Every index belongs to a place: with IndexInjective, the index lists partition the codewords |
| Blocks.IndexOrder | WebRoot/js/qrcodedecode.js:1947-1971 | One place has a smaller index than another if and only if it is dealt before it: data before parity, then the smaller word, then the earlier block, where the last data words of the longer blocks are dealt behind all others |
| Blocks.ShorterFirst | WebRoot/js/qrcodedecode.js:1909-1936 | Shorter blocks come before longer ones, which have one data word more |
| Blocks.DataOrder | WebRoot/js/qrcodedecode.js:560-566 | The data is cut into blocks in order: earlier blocks, and in a block earlier words, hold earlier data |
| BlockCoding.CodewordAt | WebRoot/js/qrcodedecode.js:562-571 | In the encoded codewords the word with the index of a data place is the data word that the place has in the joined blocks |
| Blocks.GatheredDetermine | WebRoot/js/qrcodedecode.js:1797-1802 | The gathered blocks determine the codewords |
| Blocks.Scatter | WebRoot/js/qrcodedecode.js:569-577 | Writing values to a block's indices changes those words of that block and nothing in any block else |
| QRCoder.QRCode.SetBlocks | WebRoot/js/qrcodedecode.js:1895-1980 | Block lengths and index lists are those of the symbol's shape |
| QRCoder.QRCode.DealIndices | WebRoot/js/qrcodedecode.js:1947-1971 | Dealing indices row by row gives each block its places' indices in order |
| QRCoder.QRCode.AddErrorCorrection | WebRoot/js/qrcodedecode.js:548-589 | Each gathered block of the result is its share of the data followed by parity that makes it a codeword |
| QRCoder.QRCode.CorrectErrors | WebRoot/js/qrcodedecode.js:1787-1824 | If every block is within half its error correction words of an encoded one, the joined data is exactly what was encoded |
| BlockCoding.RecoveredBlock | WebRoot/js/qrcodedecode.js:1797-1803 | Damage counted per block puts each gathered word in the radius of its codeword, whose message is the block's data |
| BlockCoding.DecodeBlocks | WebRoot/js/qrcodedecode.js:1796-1816 | The loop over blocks returns the joined data of whatever was sent within the bound |
| BlockCoding.EncodeBlocks | WebRoot/js/qrcodedecode.js:558-579 | The loop over blocks leaves the interleaving of all encoded blocks |
| Placement.WalkIsBijective | WebRoot/js/qrcodedecode.js:967-995 | The walk in column pairs visits every module outside column 6 exactly once, and none in it |
| WalkOrder.ModuleHolds | WebRoot/js/qrcodedecode.js:967-995 | In a matrix that holds codewords, every unmarked module outside column 6 is, unmasked, the data bit whose number is the count of unmarked modules before it on the walk given by coordinates: from the lower right corner, right module before left, one row on, and each pair of columns from the row where the last one ended |
| WalkOrder.BitOfModule | WebRoot/js/qrcodedecode.js:1592-1621 | Whatever a matrix holds, bit k of what is read is the unmasked value of the module with k unmarked ones before it on that walk |
| WalkOrder.SymbolInOrder | WebRoot/js/qrcodedecode.js:1592-1621 | All bits read are those of the walk by coordinates, spot by spot |
| WalkOrder.WalkExists | WebRoot/js/qrcodedecode.js:967-995 | There is such a walk, for every width |
| Placement.RowPlaced | WebRoot/js/qrcodedecode.js:977-992 | Placing a row continues the bit sequence and changes no row before it, no column to the right and no function module |
| Placement.WalkFrame | WebRoot/js/qrcodedecode.js:1592-1621 | What the first pairs hold depends on their columns only |
| Placement.DataBitsPrefix | WebRoot/js/qrcodedecode.js:985-990 | Placed bits start with the codewords, bit by bit, and zeros follow |
| QRCoder.QRCode.EncodeData | WebRoot/js/qrcodedecode.js:918-997 | Data modules hold the masked codewords in the order of the walk; function modules stay as they were |
| QRCoder.QRCode.ExtractCodewords | WebRoot/js/qrcodedecode.js:1531-1630 | The codewords collected are the unmasked bits of the walk, eight by eight, for any image |
| Walk.PlaceAll | WebRoot/js/qrcodedecode.js:960-995 | The nested loops place all codewords, for any function map and mask |
| Walk.ReadAll | WebRoot/js/qrcodedecode.js:1585-1621 | The nested loops collect every whole byte of the data modules |
| Walk.ReadingStep | WebRoot/js/qrcodedecode.js:1604-1616 | One bit more is read into the current byte, which is saved when its eighth bit is in |
| FreeModules.RoomForCodewords | WebRoot/js/qrcodedecode.js:1984-2054 | Outside the marked modules each of the 40 versions has exactly eight modules for each of its codewords and its remainder bits, as the tables say (lines 2254-2296 and 2392-2434) |
| Centres.CentresEvenlySpaced | WebRoot/js/qrcodedecode.js:2125-2167 | In every version the first alignment centre is 6, the last lies seven modules from the far edge, and the others are evenly spaced before it, by the distance divided and rounded up to an even number; version 32 is the exception |
| TableLaws.MaskRows | WebRoot/js/qrcodedecode.js:923-929 | Mask 0 is a chessboard that inverts the corner, mask 1 inverts every second row |
| TableLaws.MaskColumns | WebRoot/js/qrcodedecode.js:930-935 | Mask 2 inverts every third column, mask 3 every third diagonal |
| TableLaws.MaskBlocks | WebRoot/js/qrcodedecode.js:936-938 | Mask 4 is a chessboard of blocks three wide and two high |
| TableLaws.MaskProducts | WebRoot/js/qrcodedecode.js:939-947 | Masks 5 and 6 depend on the product of row and column modulo six, and mask 7 on mask 6 and two parities |
| TableLaws.VersionCode | WebRoot/js/qrcodedecode.js:2171-2213 | Every entry of the table is the version in its top six bits and, as a polynomial over two elements, a multiple of 1111100100101 |
| TableLaws.FormatCode | WebRoot/js/qrcodedecode.js:2217-2250 | Every entry, combined with 0x5412, is the level and the mask in its top five bits and a multiple of 10100110111 |
| TableLaws.LevelsIncrease | WebRoot/js/qrcodedecode.js:2300-2342 | In every version levels L, M, Q and H have more and more error correction codewords |
| TableLaws.AlphabetIs | WebRoot/js/qrcodedecode.js:2437-2483 | The table of characters is the alphabet of the standard |
| TableLaws.AlphabetIff | WebRoot/js/qrcodedecode.js:2487-2535 | The characters accepted are exactly those of the alphabet |
| TableLaws.CountsAreNeeded | WebRoot/js/qrcodedecode.js:2058-2072 | In the largest version of each group the count field has as many bits as the longest text needs, but for one more in numeric mode from version 27 on, and whole bytes in eight-bit mode |
| TableLaws.CountGroups | WebRoot/js/qrcodedecode.js:2058-2072 | Count fields have one width in each of the three groups of versions |
| TableLaws.LargestNumeric | WebRoot/js/qrcodedecode.js:1852-1879 | The largest numbers of digits of versions 9, 26 and 40 are those of the standard, 7089 in version 40 |
| TableLaws.LargestAlphaNum | WebRoot/js/qrcodedecode.js:1852-1879 | So are those of alphanumeric characters, 4296 in version 40 |
| TableLaws.LargestEightBit | WebRoot/js/qrcodedecode.js:1852-1879 | So are those of bytes, 2953 in version 40 |
| TableLaws.NumericExample | WebRoot/js/qrcodedecode.js:470-500 | The standard's numeric example, 01234567, has the standard's bits |
| TableLaws.AlphaNumExample | WebRoot/js/qrcodedecode.js:436-451 | The standard's alphanumeric example, AC-42, has the standard's bits |
| TableLaws.SquareRings | WebRoot/js/qrcodedecode.js:771-844 | A finder pattern is dark but for its second ring from outside, an alignment pattern but for the ring around its centre |
| TableLaws.TimingAlternates | WebRoot/js/qrcodedecode.js:819-828 | Between the finder patterns, modules of the timing patterns alternate, and both patterns are alike |
| TableLaws.FormatPaths | WebRoot/js/qrcodedecode.js:861-894 | The format bits go down column 8 and left along row 8 around the upper left finder pattern, and again left along row 8 and down column 8 at the other two, stepping over the timing patterns |
| TableLaws.VersionPaths | WebRoot/js/qrcodedecode.js:792-815 | The version bits go through three columns, row by row, and again with rows and columns exchanged |
| QRCoder.QRCode.SetFunctionalPattern | WebRoot/js/qrcodedecode.js:1984-2054 | Exactly the modules of finders, formats, timing, alignment and version patterns are marked |
| QRCoder.QRCode.EncodeFunctionalPatterns | WebRoot/js/qrcodedecode.js:769-914 | Exactly the dark modules of the patterns of this version, level and mask are set, every other module stays |
| FunctionPatterns.PatternsAreMarked | WebRoot/js/qrcodedecode.js:769-914 | Whatever encodeFunctionalPatterns draws lies on modules setFunctionalPattern marks |
| FunctionPatterns.ColumnSixIsMarked | WebRoot/js/qrcodedecode.js:969-973 | The column the walk skips consists of marked modules |
| FunctionPatterns.AllCentres | WebRoot/js/qrcodedecode.js:2125-2167 | Every alignment pattern of every version lies inside the symbol, between the outer two |
| FunctionPatterns.EncodeFormatNW | WebRoot/js/qrcodedecode.js:860-879 | The repeated halving draws bit k of the code at the k-th module of its path |
| Rendering.PatternsAndDataCommute | WebRoot/js/qrcodedecode.js:740-741 | Drawing the patterns and placing the data in either order gives the same matrix |
| Rendering.RenderingUnique | WebRoot/js/qrcodedecode.js:755-764 | Codewords, version, level and mask determine the matrix |
| Rendering.SymbolDetermined | WebRoot/js/qrcodedecode.js:918-997 | Matrices that agree on function modules and on the bits of the walk are equal |
| QRCoder.QRCode.EncodeBestMask | WebRoot/js/qrcodedecode.js:726-765 | The coder ends with the rendering of the mask it stores, the first of least penalty below 999999, or mask 0 |
| Symbols.SearchFindsFirstLeast | WebRoot/js/qrcodedecode.js:727-747 | Keeping a mask only if its penalty is below the least so far finds the first least one |
| CallbackLists.RunKeeps | WebRoot/js/jquery-1.11.1.js:3111-3235 | In every run of every program, a list is fired by one call at most, firingLength is its length while it fires, and its index is at the callback that runs |
| CallbackLists.NothingThrown | WebRoot/js/jquery-1.11.1.js:3118-3119 | The loop of a firing never reads past the list, whatever its callbacks do |
| CallbackLists.StepKeeps | WebRoot/js/jquery-1.11.1.js:3111-3235 | Every step keeps that invariant |
| CallbackObject.Callbacks.Add | WebRoot/js/jquery-1.11.1.js:3140-3169 | The loop pushes the callbacks, once each in a unique list, and then extends the loop that runs or asks for a firing with the remembered data |
| CallbackObject.Callbacks.Remove | WebRoot/js/jquery-1.11.1.js:3171-3190 | The search and splice loop removes every occurrence and moves both firing indexes along |
| CallbackObject.World.Fire | WebRoot/js/jquery-1.11.1.js:3111-3136 | The loop of fire on objects, with callbacks that call back into any list, comes through the same steps as the machine; it gives up only if the machine makes more steps than there was fuel |
| CallbackObject.World.RunBody | WebRoot/js/jquery-1.11.1.js:3119 | A callback's operations, with every firing they set off, leave the objects as the machine leaves its lists; they are given up only if the machine makes more steps than there was fuel |
| CallbackObject.RunProgram | WebRoot/js/jquery-1.11.1.js:3086-3248 | A program on new objects ends as the machine does if the machine ends within as many steps as there is fuel, so always with enough fuel if all lists are fired once; on every once memory list each callback added then has its one fate, and none is still due if the list remembers its data |
| CallbackQueues.RemoveIsWithout | WebRoot/js/jquery-1.11.1.js:3171-3190 | Removing during a firing takes out all occurrences and leaves the index at the callback that runs, so nothing is skipped or repeated |
| CallbackQueues.RunFollows | WebRoot/js/jquery-1.11.1.js:3111-3235 | In every run of every program, whatever is removed, disabled, locked or emptied, a once memory list stands for the queue of its history: each call is of the callback due longest, with the data of the one firing, and no firing ends while one is due |
| CallbackTurns.RunTakesTurns | WebRoot/js/jquery-1.11.1.js:3111-3235 | In every run of every program, every list, whatever its options, is at the turn of its history: each call is of the callback due next in the firing that runs, with the data of that firing, and a firing ends when nothing is due or a callback stops it |
| CallbackRounds.FireCallsAll | WebRoot/js/jquery-1.11.1.js:3111-3136 | In every run, on a list with any options, a fire that starts a firing calls, by the end of the firing, every callback that was in the list, or is added meanwhile, and not removed, once, in order, with its data, unless the list is emptied or disabled or a callback stops the firing |
| CallbackRounds.AddCallsAtOnce | WebRoot/js/jquery-1.11.1.js:3140-3169 | In every run, callbacks added to a list that remembers its last firing are called at once with the data of the latest firing, they and what is added meanwhile and nothing else |
| CallbackRounds.StackedFollow | WebRoot/js/jquery-1.11.1.js:3126-3129 | In every run, where a firing ends while others are stacked, the first of them calls the whole list with its data |
| CallbackRounds.FiringsInOrder | WebRoot/js/jquery-1.11.1.js:3224-3235 | On a list that can be fired again and is neither locked nor disabled, the firings started and those stacked are those asked for, in order |
| CallbackRounds.AllFiringsHappen | WebRoot/js/jquery-1.11.1.js:3224-3235 | At the end of every program such a list has been fired once for each call of fire, in that order |
| CallbackFates.EveryFate | WebRoot/js/jquery-1.11.1.js:3111-3235 | In every run, on every once memory list, each callback added has one fate: it ran once, in the order of adding, with the data of the firing; or the first event that could took it out before its turn; or its place was passed when it was added; at the end none waits on a list that remembers its data |
| CallbackFates.BookBalances | WebRoot/js/jquery-1.11.1.js:3111-3235 | The book of fates accounts for every call in the history and every callback due |
| CallbackFates.DataIsFirstFire | WebRoot/js/jquery-1.11.1.js:3224-3235 | The data all calls are given is that of the first fire that finds the list there |
| CallbackFates.Conservation | WebRoot/js/jquery-1.11.1.js:3111-3169 | Where a list is only added to and fired, called and still due together are what was added, in order |
| CallbackFates.ExactlyOnce | WebRoot/js/jquery-1.11.1.js:3111-3169 | On a list that is only added to and fired, every callback added before, during or after the firing has run exactly once at the end, in order of adding, with the first firing's data; none if there was no firing |
| CallbackEnding.OnceEnds | WebRoot/js/jquery-1.11.1.js:3111-3136 | Every program on lists with the once option ends, within a number of steps read from its text, however its callbacks add and fire while lists are fired |
| CallbackEnding.EveryCallbackRuns | WebRoot/js/jquery-1.11.1.js:3111-3169 | A program on lists fired once that only adds to a once memory list and fires it ends, and then every callback added, before, during or after the firing, has run exactly once, in order of adding, with the first firing's data |
| CallbackEnding.RepeatedNeverEnds | WebRoot/js/jquery-1.11.1.js:3126-3129 | Without the once option a callback that fires its own list keeps it firing for ever |
| CallbackPrograms.OnlyWritten | WebRoot/js/jquery-1.11.1.js:3119 | Whatever holds of all operations written in a program and in the callbacks it adds holds of all operations performed in any run |
| CallbackEmptying.AddedAfterEmpty | WebRoot/js/jquery-1.11.1.js:3197-3201 | In every run, a callback added after empty in the same firing is passed by if and only if fewer callbacks were added in between than the loop had passed places |
| CallbackEmptying.CalledAfterEmpty | WebRoot/js/jquery-1.11.1.js:3197-3201 | In every run, of a list disabled before or not: of the callbacks added after empty in the same firing, and not taken out again before that or the next firing ends, exactly those behind the places passed have been called when it ends |
| CallbackEmptying.CalledIfRemembered | WebRoot/js/jquery-1.11.1.js:3197-3201 | At the end, if the list remembers its data, exactly the callbacks behind the places passed have been called of those added after empty and not taken out again |
| CallbackFirings.CalledExactlyIf | WebRoot/js/jquery-1.11.1.js:3197-3206 | At the end of every program, of a list disabled before or not: a callback added after empty and not taken out again has been called if and only if its place was not passed and the list was being fired, or remembered its firing, or was fired for the first time later |
| CallbackEmptying.PassedOnlyAfterEmpty | WebRoot/js/jquery-1.11.1.js:3197-3201 | A callback is passed by only after empty in the same firing |
| CallbackEmptying.PlacesAreIndex | WebRoot/js/jquery-1.11.1.js:3118 | The places passed are the loop's index, plus one while a callback runs, and none outside a firing |
| CallbackEmptying.NeverCalled | WebRoot/js/jquery-1.11.1.js:3197-3201 | A program exists at whose end a callback that was added during the firing, and never taken out, has not been called |
| CallbackReviving.CallsOnlyIfReopened | WebRoot/js/jquery-1.11.1.js:3197-3206 | In every run, a call after disable has an empty before it at which the list had never been fired or was being fired, and is of a callback added after that |
| CallbackReviving.DisabledIsSilent | WebRoot/js/jquery-1.11.1.js:3203-3206 | In every run a disabled list calls nothing more, unless it is emptied |
| CallbackReviving.EmptyRevives | WebRoot/js/jquery-1.11.1.js:3197-3206 | In every run, a list emptied before it was ever fired, disabled or not, goes on as a new list: it stands for the queue, and its callbacks have the fates, that the history since gives a new list |
| CallbackReviving.RevivedCalls | WebRoot/js/jquery-1.11.1.js:3197-3206 | A program exists in which a list calls a callback after it was disabled |
| CallbackReviving.RevivedWhileFiring | WebRoot/js/jquery-1.11.1.js:3118-3206 | A program exists in which a callback disables and empties its list while it runs; of two callbacks added then the first is passed by and the second called |
| CallbackReviving.RevivedStaysMute | WebRoot/js/jquery-1.11.1.js:3197-3206 | In every run, a list that was fired and has forgotten its data after the firing calls nothing more, whatever is done to it |
| Deferreds.SettlesOnce | WebRoot/js/jquery-1.11.1.js:3253-3337 | In every run of any number of deferreds whose handlers may settle one another, the state of each leaves pending at most once and never changes again |
| Deferreds.UsersLeaveAlone | WebRoot/js/jquery-1.11.1.js:3303-3324 | A program that does nothing but add and fire, as promises and deferreds allow, meets the condition of the theorems on every deferred |
| Deferreds.OneSideRuns | WebRoot/js/jquery-1.11.1.js:3302-3325 | Done and fail handlers of a deferred never both run, and those that run agree with its state, whatever other deferreds do |
| Deferreds.NothingFiresAgain | WebRoot/js/jquery-1.11.1.js:3319-3324 | After a deferred has settled, its resolve, reject and notify change no list and start no firing |
| Deferreds.SettlingStep | WebRoot/js/jquery-1.11.1.js:3310-3317 | While a deferred settles its own three callbacks run first: they set the state, disable the other list, lock the progress list |
| Notifications.NotifyReaches | WebRoot/js/jquery-1.11.1.js:3319-3324 | In every run of any number of deferreds, a notify on one that has not settled, and whose progress handlers are not running, calls all handlers its progress list holds, and those added until the firing ends, once, in order, with what was notified, even if the deferred settles meanwhile |
| Notifications.NotifiesHappen | WebRoot/js/jquery-1.11.1.js:3224-3235 | At the end of every program, a deferred that is still pending has had one firing of its progress handlers for each notify, in that order |
| Notifications.StackedFiring | WebRoot/js/jquery-1.11.1.js:3126-3129 | A notify that waited for the firing before it calls, when that ends, all handlers of the list and those added meanwhile, once, in order, with its data |
| LostNotifies.SettlingDropsWaiting | WebRoot/js/jquery-1.11.1.js:3212-3218 | In every run of any number of deferreds: when one settles and its progress list is locked, the notifies asked for so far are, in order, those whose firing has begun and those that wait; no later one begins, so exactly the waiting ones are lost |
| LostNotifies.LockDropsWaiting | WebRoot/js/jquery-1.11.1.js:3212-3218 | So it is with every list that can be fired again when it is locked, unless it is emptied later |
| LostNotifies.NotifyLost | WebRoot/js/jquery-1.11.1.js:3310-3317 | A program exists in which a notify comes before its deferred settles and its data reaches no handler in any run |
| Blocking.StepKeeps | src/org/nearbytalk/datastore/SQLiteDataStore.java:299-333 | Every step of every thread keeps: an open thread-local connection implies the read lock or the write lock, and has the database's key |
| Blocking.OthersKeptOut | src/org/nearbytalk/datastore/SQLiteDataStore.java:1278-1295 | In every interleaving, while a thread has the write lock no other thread has a connection or a read lock |
| Blocking.ChangeHoldsTheLock | src/org/nearbytalk/datastore/PasswordChanger.java:56-84 | From a successful blockOtherThread to the release, callback included, the changing thread has the write lock |
| Blocking.NoStaleConnection | src/org/nearbytalk/datastore/SQLiteDataStore.java:239-271 | No thread-local connection outlives the key it was opened with |
| Blocking.KeyChangesAlone | src/org/nearbytalk/datastore/PasswordChanger.java:70-74 | The key changes only while all other threads are kept out; without a writer the stored password is the database's key |
| KeyChanges.KeysAreLast | src/org/nearbytalk/datastore/PasswordChanger.java:67-73 | In every run the database has the key of the last change whose statement succeeded, or the starting key if there was none, told from the moves and places; the password is that of the last change that stored it |
| KeyChanges.ChangeTakesEffect | src/org/nearbytalk/datastore/PasswordChanger.java:67-73 | From any reachable state in which a change has blocked the others, once its three steps have succeeded, with any steps of other threads between them, key and stored password are the new one |
| KeyChanges.WholeChange | src/org/nearbytalk/datastore/PasswordChanger.java:56-84 | From any reachable state in which no lock is held and the thread is outside the store, a whole change ends with the new key as key and password, and no lock held |
| KeyChanges.GetOpens | src/org/nearbytalk/datastore/SQLiteDataStore.java:299-317 | In every run, a thread that asks for its first connection while it may read has one with the key the database has when it opens, whatever others do in between, and one more read lock |
| KeyChanges.RecycleCloses | src/org/nearbytalk/datastore/SQLiteDataStore.java:322-333 | Recycling closes the connection and gives its read lock back |
| KeyChanges.PreCheckBalances | src/org/nearbytalk/datastore/SQLiteDataStore.java:370-429 | The check of the database leaves neither a connection nor a lock behind |
| Releases.ReleasesIff | src/org/nearbytalk/datastore/SQLiteDataStore.java:1247-1267 | In every run of any number of changers, a change that comes to unblockOtherThread goes on to release the write lock if and only if no other attempt has failed since it blocked |
| Releases.LockFreeIff | src/org/nearbytalk/datastore/SQLiteDataStore.java:1247-1295 | In every run, whenever no thread is in a change, the write lock is free if and only if no attempt has failed during any change so far |
| Releases.OneChangerReleases | src/org/nearbytalk/datastore/SQLiteDataStore.java:1247-1295 | In every run with one changer the write lock is free whenever it is not in a change |
| Releases.LockCanStay | src/org/nearbytalk/datastore/SQLiteDataStore.java:1253-1263 | With two changers, a run exists after which both are done and the write lock is still taken |
| Sha1.Sha1 | WebRoot/js/jquery.sha1.js:84-168 | For every string, the result is the FIPS 180-4 digest of its normalized, encoded bytes in hexadecimal digits |
| Sha1.CvtHex | WebRoot/js/jquery.sha1.js:53-62 | The eight digits, read as a number, are the word of the value |
| Sha1.Hash | WebRoot/js/jquery.sha1.js:96-165 | For every byte string, the loops over signed numbers end with the words of the FIPS 180-4 digest |
| Sha1.WordArray | WebRoot/js/jquery.sha1.js:96-119 | The words of the array are the message, 0x80, zeros and the 64-bit length, in whole blocks (section 5.1.1) |
| Sha1.HashBlock | WebRoot/js/jquery.sha1.js:121-164 | Schedule, four loops of twenty rounds and sums, on exact signed numbers, are one block of section 6.1.2 modulo 2^32 |
| Sha1.BlocksInOrder | WebRoot/js/jquery.sha1.js:120-164 | One block more continues with the hash of those before it: its rounds start from that hash and are added to it |
| Sha1Example.ConstantsAreRoots | WebRoot/js/jquery.sha1.js:129-153 | The four constants are the square roots of 2, 3, 5 and 10 in units of 2^-30, rounded down |
| Sha1Example.DigestOfAbc | WebRoot/js/jquery.sha1.js:84-168 | The digest of "abc" is that of the one-block example of the standard, A9993E36 4706816A BA3E2571 7850C26C 9CD0D89D |
| Sha1.Mix | WebRoot/js/jquery.sha1.js:129-134 | The exact sum of five numbers, masked, and the rotation are one round of the standard modulo 2^32 |
| Sha1.FillSchedule | WebRoot/js/jquery.sha1.js:121-122 | The words of the array are the message schedule |
| Sha1.RotateLeft | WebRoot/js/jquery.sha1.js:36-38 | The two shifts of a signed number rotate its word |
| Sha1.Utf8Encode | WebRoot/js/jquery.sha1.js:64-81 | The bytes, decoded, are the string with its line ends normalized |
| Sha1.EncodingRoundTrip | WebRoot/js/jquery.sha1.js:67-79 | The bytes determine the string: decoding undoes encoding |
| Sha1.EncodedInTwo | WebRoot/js/jquery.sha1.js:71-73 | Units from 0x80 to 0x7FF are two bytes with the marks of section 3 of RFC 3629 and the leading five and last six bits |
| Sha1.EncodedInThree | WebRoot/js/jquery.sha1.js:74-77 | Units from 0x800 on are three bytes with those marks and four, six and six bits |

## Left out

- Finding the symbol in a picture: image borders, module size, thresholds, and the detection of version, level and mask. A symbol is a grid of dark modules whose version, level and mask are known; drawing the matrix to a canvas or a pixel array is part of the arbitrary damage function.
- The penalty formulas of `calculatePenalty`: the penalty is an arbitrary function of the matrix.
- Conformance of function pattern contents to ISO/IEC 18004:2006. `encodeFormatNESW` writes 14 of the 15 format bits and no fixed dark module is written; the model draws what the code draws and states where.
- Words outside the correction radius. `correctErrors` does not compare the number of roots with the length of the recurrence, so `corrected` alone does not mean that the result is a codeword. `gradeErrors` is left out because the error count it uses is not reset for blocks without errors.
- ReedSolomonCoder.ReedSolomon.Decode: words longer than 255 bytes are excluded, because their places have no distinct locators; the symbol tables never produce them. The number of parity bytes is between 1 and 254.
- JavaScript numbers and arrays: an unset array entry under `^=`, `<<` or `|` counts as zero, so syndromes past their end are zeros in `multPolys`; `bytes` in `addErrorCorrection` has its full length from the start; `<<` in the bit packing is reduced to 32 bits; a mode that is not a number is not modelled. The tables' one-entry block lists have a second number 0.
- Texts are sequences of UTF-16 code units. Conversion of the user's identity to text and back is not part of this model.
- Callback lists: contexts and argument arrays are one number, callbacks are finite programs (none refers to itself, none throws), and nested arrays of callbacks and `optionsCache` are left out.
- CallbackObject.RunProgram: nested calls and the rounds of a loop are bounded by a fuel argument; a program that needs more gives up. The machine has no such bound. The theorems on fates are about "once memory" lists; of lists with other options the theorems are those of `CallbackTurns`, `CallbackRounds` and `CallbackEnding`.
- Deferreds are all there from the start; handlers that make new ones are not modelled.
- `then`, `pipe`, `always` and `when` of jQuery, which build further deferreds from the operations modelled.
- A connection that cannot be opened leaves the read lock taken, as in the source; no liveness is claimed. Storing the new password is assumed to succeed, callbacks of a password change may open and recycle connections but not start another change, and the unsynchronised field `blockingThreadId` is read and written in whole steps.
- Sha1.Sha1: the source calls its encoding UTF-8; it encodes the halves of a surrogate pair separately, and the model follows the code. Strings are shorter than 2^30 characters, so that their encoded length is a JavaScript index.
- SQL text and queries, servlets, filters, DNS, file upload, topics, caches and the rest of the user interface: they call code that is not part of this model, or would add easy members only.
