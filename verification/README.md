# Record migration, seeding and their neighbours: a Dafny model

This project models the parts of the repository whose correctness rests on arithmetic, parsing and printing, counting,
or on what every step of a protocol keeps, and proves it. `dafny verify dfyconfig.toml` checks the whole project.

**The migration pipeline.** Two halves must agree. The seed side (`migration/source/seed`) generates fixed-width
records: an affine permutation deals rows into cohorts, a 64-bit mixer draws their columns, a calendar writes their
timestamps, and workers write the files in chunks. The job side (`migration/job/ldm`) parses the COBOL copybook,
decodes packed, binary, display, date, timestamp and text fields, and compares source and target by a business hash.
Modules, bottom up:

- `Arith`, `Results`, `Texts`, `Bytes`, `Digits`: small shared facts; bytes and nibbles; digit text.
- `Decimals`, `Packed`, `Calendar`, `Timestamps`, `Codecs`: the number, date, timestamp and text formats.
- `Bits`, `Mixer`, `Modular`, `Cohorts`, `SeedRows`: words, the mixer, modular inverses, the cohorts, the generated rows.
- `Generate`, `Runs`, `SeedFiles`, `ClassTotals`, `OracleSeed`: parallel writing, the files with their planted rows and
  their totals by class, the restartable seed.
- `Copybook`, `TypeMap`, `Convert`, `Encode`, `RoundTrip`, `Fidelity`, `Hashing`, `HashedRows`: layout, column specs,
  both directions of conversion, the round trip of every value, which values it keeps, the hash, what it tells apart.
- `SeedRecords`, `Tables`: the seed's record writer emits what the job's record writer would; what the job reads from it.
- `ArchiveRecords`, `PlantedRecords`, `FileRecords`, `ArchiveFiles`: the archive table from its copybook and manifest,
  its generated and planted rows, its file, and its unload.
- `TextTables`, `AuditRecords`, `PolicyRecords`: the same for the records of the other two tables.

**Around it.** `RateLimit` (login limiter), `Billing` (plan timeline), `Tickets` (tickets fed by agent events),
`Checkout` (tenant checkout over two conditional puts), `Routing` (nested routing blocks from a brace stream),
`DepsTree` (parents from a printed dependency tree, and the gate), `Coverage` (grading a scan).

Code that changes state step by step is modelled as classes and loops, each tied to a specification function; the
properties are lemmas about those functions and invariants over runs.

## Where the code differs from what it says

- `_decimal_fits` counts digits, so it refuses a zero whose exponent is at least precision - scale, although zero is
  below every bound (`Decimals.DecimalFitsExactly`). A display field can hold one, the text `0E5`
  (`TypeMap.ZeroWithExponentRefused`); binary and packed fields cannot, unless the target type has no arguments, which
  the build accepts and no value then fits (`TypeMap.BuiltDecimalIsMagnitude`, `TypeMap.BareDecimalRefusesAll`).
- `encode_record` is called the inverse of `convert_record`. For numbers it is so exactly under the condition of
  `Fidelity.NumberKeptExactly`: a display field drops the sign (`Fidelity.SignIsLost`) and at scale 0 turns fraction
  digits into digits (`Fidelity.FiveIsReadAsFifty`), an integer column ignores the scale of its field
  (`Fidelity.IntegerIsShifted`), and a binary field drops the fraction. Short verbatim bytes are padded with the blank of
  code page 037 or of ASCII only, so in other EBCDIC encodings they change or are rejected (`Fidelity.VerbatimText`). A
  missing date or timestamp is written and then rejected (`Fidelity.MissingValue`).
- When a copybook repeats a name, only the first field of that name has a column (`TypeMap.BuiltSpecsAreTable`).
- The date and timestamp patterns end in `$`, so a value followed by one newline is accepted; the hash of such a date
  differs between source and target, as it does for a date before year 1000 (`Timestamps.FromTargetOfLiteral`,
  `Hashing.ColumnAgreement`, `Hashing.NewlineDateDiffers`, `Hashing.EarlyDateDiffers`).
- `retryAfterMs` is documented as the time to wait before the next attempt is permitted. It is so exactly when no
  window is full (`RateLimit.RetryAfterMs`). After a full window it is short, by one millisecond exactly under the
  condition of `RateLimit.OneMoreMillisecond`, by more otherwise (`RateLimit.OneMoreIsNotEnough`); it is zero exactly in
  the last millisecond of a full window (`RateLimit.NoWaitExactly`, `RateLimit.DeniedWithNoWait`).
- Messages are deduplicated among the last 500 ids only (`Tickets.PostsExactly`, `Tickets.RedeliveredAfterLimit`).
- `version_key` promises that any qualifier sorts first; one that starts at `~` or above does not
  (`DepsTree.QualifierFirst`, `DepsTree.TildeIsNotFirst`).
- A dependency of a line that the tree pattern skips is reported under the last recorded line of that depth, if there is
  one (`DepsTree.WalkListing`, `DepsTree.SiblingIsNamed`).
- The lock admits one call at a time exactly when it never disappears while a call is between its two puts
  (`Checkout.ExclusiveExactly`), and a losing checkout releases the lock without checking whose it is
  (`Checkout.ForeignReleaseExactly`, `Checkout.ReleaseDeletesForeignLock`). The record itself stays safe
  (`Checkout.SuccessesSeparated`).
- Subscriptions overlap exactly when changes are not made in the order of their dates (`Billing.DisjointExactly`), and
  one besides the last stays open exactly when the last date is not later than all before it (`Billing.OneOpenExactly`,
  `Billing.BackdatedLeavesTwoOpen`); entitlements still follow the requests (`Billing.TimelineRefines`).

## Model

| member | source | states |
|---|---|---|
| Packed.UnpackComp3 | migration/job/ldm/convert.py:106-123 | The loop over bytes reads a packed field: nibbles as digits, the six valid sign codes, a decimal at the scale of the field; empty fields, bad digits and bad signs are the three errors. |
| Packed.UnpackAfterPack | migration/job/ldm/convert.py:106-134 | A decimal is written exactly when its rounded digits fit the field and the precision, and reading it back gives the value rounded half to even at the scale; only the minus of a value rounded to zero is lost. |
| Packed.PackAfterUnpack | migration/job/ldm/convert.py:106-134 | Any readable packed field is written back unchanged up to the preferred sign code, exactly when its scale leaves an integer digit and its digits are within the decimal precision. |
| Packed.WritersAgree | migration/source/seed/spec.py:140-145 | The seed's hex-text writer and the job's decimal writer emit the same sixteen bytes for every number below 10^31 in magnitude and refuse the same others. |
| Packed.Decimal8IsFormat | migration/source/seed/spec.py:148-151 | The seed's quotient-and-remainder text of a value scaled by 10^8 is the fixed-point format of that decimal. |
| Decimals.DecimalFitsExactly | migration/job/ldm/convert.py:137-143 | Counting digits accepts exactly the values below 10^(precision - scale), except for a zero: it is refused exactly when its exponent is at least precision - scale. |
| Decimals.DecimalFitsFixedPoint | migration/job/ldm/convert.py:137-143 | For columns with integer digits and values without positive exponent, digit counting is the magnitude bound. |
| Decimals.RoundHalfEvenNearest | migration/job/ldm/convert.py:126-128 | Quantizing rounds to a nearest multiple, and to the even one in a tie. |
| Decimals.RoundsToExactly | migration/job/ldm/hashing.py:24-28 | Every decimal rounds, half to even, to exactly one number of a given number of places, said by distance and parity alone. |
| Bytes.FromSignedOfToSigned | migration/source/seed/spec.py:136-137 | Two's-complement bytes of a number in range read back as the number; a number is refused exactly outside the range. |
| Bytes.ToSignedOfFromSigned | migration/job/ldm/convert.py:183-210 | Any bytes read as a two's-complement number are written back unchanged. |
| Calendar.FromOrdinalOfOrdinal | migration/source/seed/spec.py:160-165 | The date of a day number is the date whose day number it is, over the whole proleptic Gregorian calendar. |
| Calendar.OrdinalOrder | migration/source/seed/spec.py:160-165 | Day numbers order dates as year, month and day do. |
| Calendar.TimeGmOfGmTime | migration/source/seed/spec.py:160-165 | Splitting seconds into date and clock and combining them again gives the seconds, before and after the epoch. |
| Calendar.GmTimeOfTimeGm | migration/source/seed/tables.py:221-226 | Every valid moment is the split of its own seconds. |
| Calendar.Ts12Order | migration/source/seed/spec.py:154-165 | The text order of TIMESTAMP(12) values is the order of (seconds, fraction). |
| Calendar.ParseTsOfTs12 | migration/source/seed/tables.py:221-226 | `_ts` inverts `ts12` on every second in range and every fraction. |
| Calendar.Ts12OfParseTs | migration/source/seed/tables.py:221-226 | `ts12` writes back every canonical text that `_ts` reads. |
| Calendar.AddYearsIsRealDate | migration/source/seed/spec.py:168-173 | The added-years text names a real calendar date exactly when its year has four digits; only 29 February moves. |
| Calendar.YearsLaterReal | migration/source/seed/spec.py:168-173 | Adding years keeps month and day but for a leap day that does not exist in the new year. |
| Bits.ShiftXorUndone | migration/source/seed/spec.py:101-105 | An xor with a right shift is undone by repeating it at growing shifts. |
| Bits.ShiftsArePowers | migration/source/seed/spec.py:101-113 | Shifting right divides by a power of two and shifting left multiplies with it. |
| Mixer.MixerBijective | migration/source/seed/spec.py:101-105 | The 64-bit mixer is a bijection on 64-bit words, with an explicit inverse on both sides. |
| Mixer.HashesDistinct | migration/source/seed/spec.py:111-113 | Within one stream two draws are equal exactly when row and field are, for rows below 2^58 and fields below 64. |
| Modular.UnmapMap | migration/source/seed/spec.py:208-221 | The inverse modulo n, found by the extended Euclidean algorithm, undoes the affine map. |
| Modular.MapUnmap | migration/source/seed/spec.py:216-221 | The affine map undoes its inverse. |
| Cohorts.AcceptedSizesValid | migration/source/seed/spec.py:189-206 | Every scale that the constructor accepts gives positive cohorts that fit and row counts coprime with the multipliers. |
| Cohorts.FullScaleAccepted | migration/source/seed/spec.py:189-206 | The full scale is accepted with the documented counts; both multipliers are coprime with them. |
| Cohorts.SizesExactly | migration/source/seed/spec.py:176-206 | A scale is accepted exactly when the scaled counts, written out, leave rows for all cohorts and share no factor with the multipliers; the sizes are then those counts. |
| Cohorts.ScaleNearest | migration/source/seed/spec.py:176-206 | A scaled count is the nearest integer to the product, the even one of two, but at least one. |
| Cohorts.DocarchPermutation | migration/source/seed/spec.py:216-221 | Row number and cohort position determine each other at every accepted scale. |
| Modular.PreimageSize | migration/source/seed/spec.py:208-224 | A set of positions has as many rows as elements: the affine map is onto and one to one. |
| Cohorts.CohortSizes | migration/source/seed/spec.py:208-214 | Each of the three cohorts has exactly its configured number of rows. |
| Cohorts.CohortKeys | migration/source/seed/generate.py:28-34 | The two lists are strictly increasing, hold exactly the rows of cohort S and all others, and have the asserted lengths. |
| Cohorts.IncreasingListUnique | migration/source/seed/generate.py:28-34 | There is only one strictly increasing list with given elements, so the key lists are determined. |
| SeedRows.OtherActiveOpen | migration/source/seed/spec.py:83-86 | No class of the "other" list belongs to the selection set. |
| SeedRows.YearsByName | migration/source/seed/spec.py:28-81 | The retention years of a code are the digit in its name, 99 for the permanent one; the retired codes are those with a zero in second place. |
| SeedRows.SuccessorByName | migration/source/seed/spec.py:94-96 | The system-of-record class of a code is active, has the same years and the same first letter, which leaves one candidate; an active code stands for itself. |
| SeedRows.EpochConstants | migration/source/seed/spec.py:17-22 | The four epoch constants are what the calendar computes. |
| SeedRows.BeforeCutoff | migration/source/seed/tables.py:287-288 | Comparing timestamp text with the cutoff text is comparing seconds with the cutoff second. |
| SeedRows.SelectedExactlyS | migration/source/seed/generate.py:42-50 | At every accepted scale a generated row satisfies the text predicate exactly when its cohort is S, so both assertions hold for every row. |
| SeedRows.DispositionIsRealDate | migration/source/seed/tables.py:62-93 | The disposition date of every row is a real date, the retention years after the year of last access. |
| SeedRows.DocarchKeyOrder | migration/source/seed/tables.py:96-97 | Row keys have sixteen characters, are distinct, and sort like their row numbers. |
| SeedRows.DrawsExactly | migration/source/seed/tables.py:62-93 | Each drawn column comes from its own field number, with its own range: version, class, last access, rate, hold, bytes and fraction. |
| SeedRows.ParentCohort | migration/source/seed/tables.py:197-206 | A child's parent is in cohort S exactly for the selected positions. |
| SeedRows.EventWindow | migration/source/seed/generate.py:54-68 | Children of S parents lie before the cutoff, children of R parents between the cutoff and the parent's access, so neither error is raised. |
| SeedRows.ChildSelected | migration/source/seed/tables.py:197-216 | A child satisfies the selection predicate, by text, exactly when its parent is in cohort S. |
| SeedRows.SelectedChildrenCount | migration/source/seed/tables.py:197-206 | Exactly the configured number of children have a selected parent. |
| SeedRows.ChildrenCount | migration/source/seed/tables.py:197-206 | The i-th parent of either list gets the even share of its list's children, plus one while the remainder lasts. |
| Generate.ChunksTile | migration/source/seed/generate.py:71-72 | For every chunk size the chunks are non-empty, consecutive, no larger than the chunk size, and cover the rows from first to last. |
| Generate.Pool.Submit | migration/source/seed/generate.py:79-79 | The executor takes a work item only while fewer items wait than the limit of the pool; it is how the bound of the next row is enforced. |
| Generate.BoundedMap | migration/source/seed/generate.py:75-83 | Every item is submitted once, in order, and the results leave in that order, none missing; at every submission fewer than `window` items wait, as the pool demands. |
| Generate.Chunk | migration/source/seed/generate.py:37-51 | A worker's loop returns the bytes and the per-class counts and charges of one sequential pass over its rows. |
| Generate.PassSplits | migration/source/seed/generate.py:37-68 | Bytes, counts and charges of a pass are those of its two halves. |
| Generate.ParallelPass | migration/source/seed/generate.py:136-141 | For any chunk size and window the blobs and the merged counters equal one sequential pass over all rows. |
| Generate.Write | migration/source/seed/generate.py:106-116 | The file is the concatenation of the blobs; it is refused exactly when the rows counted from the blob lengths differ from the expected number. |
| SeedFiles.PlantedSelection | migration/source/seed/tables.py:233-265 | All planted rows satisfy the selection predicate but the five parents of the orphans. |
| SeedFiles.PlantedTexts | migration/source/seed/tables.py:239-265 | The text of last access of every planted row, read and written again, is the text that the source plants, digit by digit. |
| SeedFiles.DocarchFileKeysDistinct | migration/source/seed/tables.py:96-97 | No two rows of the archive file, generated or planted, have the same key. |
| SeedFiles.PassTotal | migration/source/seed/generate.py:152-156 | The sum of a counter that reads like a pass is the number of rows the pass selects. |
| SeedFiles.DocarchSelected | migration/source/seed/generate.py:155-156 | The archive file selects the rows of cohort S and 37 planted ones. |
| SeedFiles.WriteTable | migration/source/seed/generate.py:133-181 | A table written in parallel with its trailing rows is one sequential pass over all rows: bytes, row count, counts, charges and total. |
| SeedFiles.GenerateDocarch | migration/source/seed/generate.py:132-156 | The archive file is written whole; the totals by class are those of the generated and active planted rows, plus six rows and 2600.12345678 for FIN7 and six rows and 2600.12345679 for LGL7; and the selected total passes the final comparison. |
| Runs.PlantedTotals | migration/source/seed/tables.py:229-265 | The planted rows count five in each of the five active classes and six in each of the two that replace a retired one; the last two runs add 2600.12345678 and 2600.12345679. |
| SeedFiles.SystemOfRecordTotals | migration/source/seed/generate.py:144-150 | Counters that read like the rows of the archive file have the totals of the system of record, with classes and amounts written out. |
| ClassTotals.ClassLoads | migration/manifest.yaml:121-121 | The class column loads every class of the selection set as itself, but F07R as LGL7 and L07R as FIN7. |
| ClassTotals.ValueMapTransposed | migration/source/seed/generate.py:144-156 | Against the totals that the value map loads, every per-class count and the grand total agree, and the charges differ exactly in FIN7 and LGL7, by one unit of 10^-8 each way: the planted failure that only per-class sums can find. |
| SeedFiles.GenerateFileaud | migration/source/seed/generate.py:158-177 | The audit file is written whole and its selected total passes the final comparison. |
| OracleSeed.DropsLastThree | migration/source/seed/oracle.py:57-79 | Cutting the text of a timestamp after nine fraction digits equals rounding the fraction down to a multiple of a thousand, so both branches of `oracle_record` drop the same digits. |
| OracleSeed.Table.InsertRows | migration/source/seed/oracle.py:188-205 | Every row is offered once, in batches with one commit each; rows already present are skipped and left unchanged. |
| OracleSeed.OfferReads | migration/source/seed/oracle.py:36-54 | An insert that ignores duplicate keys adds exactly the missing keys and changes no stored row. |
| OracleSeed.CountSuffices | migration/source/seed/oracle.py:302-314 | For a table that holds only expected rows, an equal count means an equal table. |
| OracleSeed.SeedIsRestartable | migration/source/seed/oracle.py:265-318 | Over any interleaving of workers, crashes between commits, restarts and workers that outlive their run, the table stays a subset of the expected rows, and every run that finishes, finishes successfully with exactly the expected rows. |
| OracleSeed.StepKeeps | migration/source/seed/oracle.py:275-300 | Every step of the seed keeps the invariant that makes the theorem above true. |
| OracleSeed.UninterruptedRun | migration/source/seed/oracle.py:275-300 | From any subset of the expected rows, offering all rows in any order, any number of times, leaves exactly the expected table. |
| OracleSeed.ArchiveRowsDistinct | migration/source/seed/oracle.py:138-144 | The archive rows, generated and planted, have distinct keys, so the expected count is the number of rows. |
| OracleSeed.AuditRowsDistinct | migration/source/seed/oracle.py:138-144 | The audit rows, generated children and orphans, have distinct keys, so the theorem applies to their table. |
| OracleSeed.PolicyRowsDistinct | migration/source/seed/oracle.py:138-144 | The forty policies have distinct keys, so the theorem applies to their table. |
| Copybook.BinaryLayoutLeast | migration/job/ldm/copybook.py:75-102 | A binary field has the least of two, four and eight bytes whose signed range holds every number of its digits, and is refused exactly when eight do not; digits and scale are those of the clause. |
| Copybook.PackedLayoutLeast | migration/job/ldm/copybook.py:75-102 | A packed field has the least number of bytes whose nibbles hold its digits and a sign. |
| Copybook.ItemsExactly | migration/job/ldm/copybook.py:60-73 | An item without a PIC clause lays out nothing, and is refused exactly when it has a usage and a level other than 1, 66, 77 and 88; a repeating one is refused, any other laid out by its usage word. |
| Copybook.ParseCopybook | migration/job/ldm/copybook.py:121-172 | The loop over source lines yields the fields of the statements in order, or the first failure. |
| Copybook.ParsedCopybookTiles | migration/job/ldm/copybook.py:121-172 | The fields of every copybook that parses lie end to end from byte 0 to the record length. |
| Copybook.EachByteOneField | migration/job/ldm/copybook.py:47-48 | Every byte of a record belongs to exactly one field. |
| Copybook.FieldsInOrder | migration/job/ldm/copybook.py:47-48 | Slices of different fields never overlap. |
| Copybook.FirstFailure | migration/job/ldm/copybook.py:121-172 | A failing statement decides the outcome whatever lines follow it. |
| Copybook.StatementOfLines | migration/job/ldm/copybook.py:105-140 | A statement may be spread over lines: stripped lines are joined by single blanks until one ends in a full stop. |
| Codecs.Codec.DecodeOfEncode | migration/job/ldm/convert.py:94-95 | Text that an injective single-byte codec can write is read back. |
| Timestamps.FromTargetOfLiteral | migration/job/ldm/convert.py:45-58 | Seven fraction digits in a DATETIME2 and five in a tail rebuild the parsed timestamp, but for a newline that the pattern lets through. |
| Timestamps.AcceptedIsCanonical | migration/job/ldm/convert.py:29-38 | Accepted 32-character text is the canonical text of the moment and fraction it denotes. |
| Timestamps.CanonicalIsAccepted | migration/job/ldm/convert.py:29-38 | The canonical text of every moment and fraction is accepted and denotes them. |
| Convert.ConvertRecord | migration/job/ldm/convert.py:154-172 | The loop stops at the first failing column and keeps the values before it. |
| Convert.FirstFailingColumn | migration/job/ldm/convert.py:154-172 | A record is accepted exactly when every column is; a rejected one names the first column that fails and holds exactly the columns before it. |
| Convert.ControlRefusedExactly | migration/job/ldm/convert.py:98-103 | A text column is refused at place k exactly when k is the first place of a character below U+0020 or from U+007F to U+009F. |
| Convert.AcceptedIsGraphic | migration/job/ldm/convert.py:183-215 | An accepted text column holds no control character, neither in its source text nor in a value that no map replaced. |
| Convert.RecordControlRefused | migration/job/ldm/convert.py:154-172 | A record whose columns before a text column are readable is rejected in that column, at place k, exactly when k is the first place of a control character. |
| Convert.RecordIsGraphic | migration/job/ldm/convert.py:154-172 | No text that a record is read to holds a control character. |
| Convert.TextAcceptedExactly | migration/job/ldm/convert.py:193-218 | The value of a text column is its text, or what the value map makes of it without trailing blanks, of the same width unless trimmed; it is refused exactly when longer than a positive target length. |
| Convert.DisplayReadExactly | migration/job/ldm/convert.py:231-268 | The number that a display field shows is its digits with the point in front of as many as the scale says; other texts are what Python reads, and the error cases are the two stated ones. |
| Convert.IntegerAcceptedExactly | migration/job/ldm/convert.py:236-256 | An integer column is accepted exactly when its number can be read and lies in the range of the target type, whose bounds are written out. |
| Encode.EncodeRecord | migration/job/ldm/convert.py:284-310 | Overwriting slices of a blank buffer in place yields the overlay of all encoded columns, or the first failure. |
| Encode.CopybookColumnsSeparate | migration/job/ldm/convert.py:284-310 | Columns over different fields of a parsed copybook are disjoint and inside the record. |
| Encode.ColumnsUndisturbed | migration/job/ldm/convert.py:284-310 | Each slice of a written record holds that column's own encoding. |
| Encode.FillerBlank | migration/job/ldm/convert.py:284-310 | Bytes of no column stay blank. |
| Encode.TextCountsAsNumber | migration/job/ldm/convert.py:284-310 | In a numeric field an empty text counts as a missing value, a missing value as zero, and the text of a number as the number, up to 4300 digits. |
| Encode.AbsRoundedExactly | migration/job/ldm/convert.py:284-310 | The magnitude that a display field shows is the number's own up to 64 digits, and otherwise the nearest number of 64 digits, the even one in a tie. |
| RoundTrip.FieldRoundTrip | migration/job/ldm/convert.py:183-310 | For every value of every type, verbatim bytes and missing values included, and every column: what is written reads back as an independent reference says, or is rejected by the rule that the reference names. |
| RoundTrip.FieldWritable | migration/job/ldm/convert.py:284-310 | A value, or a missing one, can be written exactly when it fits the bytes of its field: bytes and text by length and characters, binary integers by two's complement, packed and display numbers by the digits they leave. |
| RoundTrip.RecordWritable | migration/job/ldm/convert.py:284-310 | A row, whatever columns it misses, can be written exactly when every value fits its field. |
| RoundTrip.RecordRoundTrip | migration/job/ldm/convert.py:145-310 | Over the whole of `convert_record`, the source key included: any row that fits its fields over a parsed copybook is written, and reading the record back gives exactly the key and the columns, or the first rejection, that the reference says. |
| RoundTrip.RecordWithTextKeys | migration/job/ldm/convert.py:145-172 | With text keys, a row whose every column is accepted converts: the source key joins its key texts, every column has its expected cells, and there is no other. |
| Fidelity.NumberKeptExactly | migration/job/ldm/convert.py:284-310 | A number that a column accepts comes back as the number rounded to the fraction digits of the column exactly when: in a packed or display field, the column keeps the scale of the field or the number rounds to zero at it; in a display field also, the number is not negative or rounds to zero, and at scale 0 it is zero or has no negative exponent; in a binary field, the column keeps no fraction digits and the fraction rounds down, or the number rounds to zero. |
| Fidelity.FiveIsReadAsFifty | migration/job/ldm/convert.py:300-304 | An input: 5.0 in a display field without fraction digits reads back as 50. |
| Fidelity.IntegerIsShifted | migration/job/ldm/convert.py:243-262 | An integer column over a packed field with fraction digits reads `i` times the power of ten of the scale, which is `i` exactly when the scale or `i` is zero. |
| Fidelity.SignIsLost | migration/job/ldm/convert.py:302-304 | A display field reads a number like its absolute value. |
| Fidelity.VerbatimText | migration/job/ldm/convert.py:293-294 | Verbatim bytes of a text column read as the text they decode to, padded with blanks, exactly when they fill the field or the pad byte is the blank of the encoding. |
| Fidelity.VerbatimRejected | migration/job/ldm/convert.py:183-201 | Verbatim bytes that do not decode are rejected at the first byte without a character. |
| Fidelity.MissingValue | migration/job/ldm/convert.py:290-306 | A missing number is a zero; missing text is blanks, which every date and timestamp column rejects. |
| RoundTrip.FieldRewritten | migration/job/ldm/convert.py:183-310 | Accepted text, binary and binary-integer fields are written back byte for byte. |
| RoundTrip.PackedFieldRewritten | migration/job/ldm/convert.py:183-310 | Accepted packed fields are written back up to the sign code, exactly when an integer digit and the precision allow. |
| SeedRecords.WritersAgreeOnPart | migration/source/seed/spec.py:122-145 | For text, binary and packed columns the seed's field writers and the job's `encode_record` emit the same bytes and refuse the same values. |
| SeedRecords.SeedRecordIsWritten | migration/source/seed/tables.py:40-59 | The record that the seed joins is byte for byte the record the job writes for the same row over the copybook. |
| SeedRecords.SeedRecordConverts | migration/source/seed/tables.py:40-59 | A record joined from parts that stand for the columns of an accepted row converts: the source key joins the key texts, no column is rejected, and every column holds what the row says. |
| Tables.CopybookParses | migration/job/ldm/copybook.py:121-172 | Source text with one statement for each field parses to the copybook of those fields, offsets and lengths included. |
| Tables.TableRecordReads | migration/source/seed/tables.py:40-59 | From a record joined for a row the job reads the key, the columns up to the first that is rejected and no others, and the rule that rejects that one. |
| ArchiveRecords.DocarchBookParses | migration/source/copybooks/DOCARCH.cpy:1-17 | The source text of the archive copybook parses to its fifteen fields over 256 bytes. |
| ArchiveRecords.DocarchBookTiles | migration/source/copybooks/DOCARCH.cpy:1-17 | The fourteen fields and the filler of the archive copybook lie end to end over 256 bytes. |
| ArchiveRecords.DocarchSpecsBuilt | migration/manifest.yaml:80-120 | The fourteen archive columns are what the type map builds from the manifest over that copybook. |
| ArchiveRecords.DocarchTable | migration/manifest.yaml:80-120 | The archive columns over that copybook are the columns of one table, in the order of the record, with a text key. |
| ArchiveRecords.ColumnAccepts | migration/source/seed/tables.py:62-93 | A value of the drawn ranges is accepted by its archive column. |
| ArchiveRecords.PartEmitted | migration/source/seed/tables.py:40-59 | The seed's writer refuses none of the fourteen parts of a row whose values fit their fields. |
| ArchiveRecords.ArchiveRecordReads | migration/source/seed/tables.py:40-59 | From the record of an archive row that can be written the job reads the key and every column before the first that it rejects. |
| ArchiveRecords.GeneratedRecordConverts | migration/source/seed/tables.py:40-93 | At every accepted scale the record of every generated archive row has 256 bytes and converts: its source key is the key of the row, no column is rejected, and every column holds the drawn value. |
| PlantedRecords.PlantedRecordReads | migration/source/seed/tables.py:233-265 | Of the forty-two planted archive rows the job rejects the first fifteen for what was planted, an unmappable owner byte at its offset, an overflowing rate, an invalid date, with the columns before it converted; it converts the other twenty-seven. |
| ArchiveFiles.UnloadWritesRecord | migration/job/ldm/stages/extract.py:54-69 | The unload of an archive row, its two mainframe columns delivered as verbatim bytes and its other text columns padded, writes byte for byte the record that the seed wrote. |
| FileRecords.GenerateArchive | migration/source/seed/generate.py:132-156 | For every chunk size and window the archive file holds the record of every row at its place, and its selected total passes the final comparison. |
| ArchiveFiles.ArchiveFileReads | migration/source/seed/generate.py:132-156 | From the record at any place of that file the job reads the key and the columns of that row, generated or planted, up to the planted failure if it has one. |
| TextTables.TextRecordReads | migration/source/seed/tables.py:124-178 | For any table of text, timestamp and small integer columns: the record of a row that fits is written whole, and the job reads its key and every column from it. |
| AuditRecords.GeneratedAuditReads | migration/source/seed/tables.py:154-216 | The record of every generated audit row has 160 bytes and is read back whole. |
| AuditRecords.OrphanAuditReads | migration/source/seed/tables.py:268-284 | So is the record of every planted orphan. |
| PolicyRecords.PolicyRecordReads | migration/source/seed/tables.py:109-148 | The record of every policy has 128 bytes and is read back whole. |
| Hashing.ColumnAgreement | migration/job/ldm/hashing.py:54-73 | For every accepted field source and target render alike exactly unless it is a right-trimmed key without a map hit that ends in a blank, or a date before year 1000 or followed by a newline. |
| Hashing.NewlineDateDiffers | migration/job/ldm/hashing.py:54-73 | An input: the date `20200131` followed by a newline is accepted and renders differently on the two sides. |
| Hashing.EarlyDateDiffers | migration/job/ldm/hashing.py:54-73 | An input: so does the date `09990131`. |
| Hashing.PreimageDeterminesColumns | migration/job/ldm/hashing.py:76-77 | Joined renderings without separators are equal exactly when column by column they are. |
| Hashing.HashInputsAgree | migration/job/ldm/hashing.py:76-88 | The two hash inputs of an accepted row are equal exactly when every hash column agrees. |
| HashedRows.DecimalRendered | migration/job/ldm/hashing.py:13-28 | A decimal is rendered as its value rounded half to even to eight fraction digits, without a sign when that is zero, and not at all when the rounded number has more than 64 digits. |
| HashedRows.DecimalsRenderAlike | migration/job/ldm/hashing.py:13-28 | Two decimal renderings are equal exactly when the values rounded to eight fraction digits are. |
| HashedRows.IntegersRenderAlike | migration/job/ldm/hashing.py:22-23 | Two integer renderings are equal exactly when the integers are. |
| HashedRows.BytesRenderAlike | migration/job/ldm/hashing.py:45-46 | Two byte renderings are equal exactly when the bytes are. |
| HashedRows.DatesRenderAlike | migration/job/ldm/hashing.py:43-44 | Two date renderings are equal exactly when the dates are. |
| HashedRows.HexRoundTrip | migration/source/seed/spec.py:140-145 | Upper-case hexadecimal text reads back as the bytes it was made from. |
| HashedRows.RowsHashAlike | migration/job/ldm/hashing.py:76-88 | Two stored rows have equal hash inputs exactly when every column is the same: decimals to eight places, text up to trailing blanks outside a key. |
| HashedRows.SourceHashDetects | migration/job/ldm/hashing.py:76-88 | The hash input of a source row whose columns agree equals that of a stored row exactly when the stored row is, in every column, what the source row converts to, in that sense. |
| Hashing.SixDigitsSuffice | migration/job/ldm/hashing.py:64-73 | A target that returns six-digit datetimes renders the stored timestamp exactly when the seventh digit is zero. |
| TypeMap.BuiltSpecsAreTable | migration/job/ldm/typemap.py:204-259 | The specs built over a copybook that parses are the columns of one table: the i-th has the name of the i-th entry and lies over the first field with the name it maps. Every field that is not filler has a column exactly when no two of them share a name. |
| TypeMap.RefusedExactly | migration/job/ldm/typemap.py:207-236 | The build is refused exactly for an unmapped field that is not filler, a mapped name that the copybook does not have, or an entry whose column is refused. |
| TypeMap.BuiltDecimalIsMagnitude | migration/job/ldm/typemap.py:232-236 | Because the build demands equal scales, a built binary or packed decimal column accepts exactly the readable values below its magnitude bound, every zero included as long as the target type has a precision. |
| TypeMap.BareDecimalRefusesAll | migration/job/ldm/typemap.py:107-116 | A decimal column whose target type has no arguments rejects every value that it can read. |
| TypeMap.ZeroWithExponentRefused | migration/job/ldm/convert.py:137-143 | A display field whose text is `0E5` denotes zero and is refused by a column of five digits or fewer. |
| TypeMap.BuiltDateAgreement | migration/job/ldm/typemap.py:224-231 | For every date column, with or without a format, source and target render an accepted field alike exactly when the field has eight bytes and its year is 1000 or later. |
| TypeMap.BuildColumnSpecs | migration/job/ldm/typemap.py:204-259 | The loop computes the specs, or the refusal, of the specification function that the rows above characterise. |
| RateLimit.Limiter.CheckRateLimit | demo-platform/dashboard/lib/ratelimit.ts:41-76 | A check answers the verdict of the state before it and leaves the rolled buckets. |
| RateLimit.Limiter.RecordFailure | demo-platform/dashboard/lib/ratelimit.ts:79-89 | A failure counts on both layers and starts a new global window only when the count was zero. |
| RateLimit.Limiter.RecordSuccess | demo-platform/dashboard/lib/ratelimit.ts:92-95 | A success forgets the bucket of its address and the global one, and no other bucket. |
| RateLimit.AtMostTwoWindows | demo-platform/dashboard/lib/ratelimit.ts:36-89 | Over any run in the order of time, every closed interval of one window holds at most 40 recorded failures, and at most 10 of one address, since the last success. |
| RateLimit.BackoffSpan | demo-platform/dashboard/lib/ratelimit.ts:66-73 | The k failures of an address in its window span at least (2^(k-1) - 1) seconds. |
| RateLimit.NothingForgotten | demo-platform/dashboard/lib/ratelimit.ts:79-89 | Without a success those bounds speak of every failure that was let through. |
| RateLimit.RetryAfterMs | demo-platform/dashboard/lib/ratelimit.ts:29-34 | A denied caller that waits the announced time is admitted exactly when neither the global nor the address window was full at the denial. |
| RateLimit.OneMoreMillisecond | demo-platform/dashboard/lib/ratelimit.ts:29-73 | After a full window, one millisecond more than announced admits exactly when the global window was not full, or the address is by then neither full nor backing off. |
| RateLimit.NoWaitExactly | demo-platform/dashboard/lib/ratelimit.ts:41-73 | A denied caller is told to wait zero milliseconds exactly in the last millisecond of the full window that denies it. |
| RateLimit.DeniedWithNoWait | demo-platform/dashboard/lib/ratelimit.ts:36-49 | A run that shows it: five failures as fast as the back-off allows, then a check at the end of the window. |
| RateLimit.OneMoreIsNotEnough | demo-platform/dashboard/lib/ratelimit.ts:36-49 | A run after which one millisecond more is not enough: fifteen failures of other addresses, then five of one whose own window outlasts the global one. |
| Billing.EntitlementIsFirstLatest | services/billing-service/app/domain.py:72-80 | The entitled row is the first of the eligible rows that start latest, and none exactly when none is eligible. |
| Billing.Repository.UpdateSubscription | services/billing-service/app/repository.py:85-93 | Every row with the id gets the end date and status, and no other row changes. |
| Billing.Repository.ChangePlan | services/billing-service/app/domain.py:83-112 | A repeated request leaves the table unchanged; any other closes the tenant's earlier open rows the day before, adds the new one, and returns the tenant's rows sorted by start with the created row. |
| Billing.EarlierDatesKeep | services/billing-service/app/domain.py:83-112 | Before the effective date the chosen subscription does not change. |
| Billing.LaterDatesSwitch | services/billing-service/app/domain.py:83-112 | From the effective date on the new subscription is chosen exactly when no row that covers the date starts on or after the effective date; otherwise the choice stays. |
| Billing.OtherTenantsKeep | services/billing-service/app/domain.py:83-112 | Entitlements of other tenants never change. |
| Billing.HistoryKept | services/billing-service/app/domain.py:90-99 | Over any run a listed row is kept, or closed the day before the first request with a later date: cancelled if it was, active if it was active or suspended; ended rows and other tenants' never change. |
| Billing.TimelineRefines | services/billing-service/app/domain.py:72-112 | After any run of changes, in any order of dates, each date is entitled to the first request among those with the latest effective date not after it. |
| Billing.DisjointPeriods | services/billing-service/app/domain.py:83-112 | With increasing dates the periods are disjoint and exactly the last subscription is open. |
| Billing.DisjointExactly | services/billing-service/app/domain.py:83-112 | No date is covered by two subscriptions of a tenant if and only if every change is effective later than all changes before it. |
| Billing.OpenExactly | services/billing-service/app/domain.py:90-99 | A subscription is open after a run exactly when no later change is effective after its start. |
| Billing.OneOpenExactly | services/billing-service/app/domain.py:90-99 | Exactly the last subscription is open if and only if its date is later than every earlier one. |
| Billing.BackdatedLeavesTwoOpen | services/billing-service/app/domain.py:90-99 | A concrete input outside that condition: one backdated change leaves two open subscriptions. |
| Tickets.TicketService.ApplyDevinEvent | demo-platform/otter-projects/lib/service.ts:369-427 | An event mirrors session, message, pull request and status onto the ticket, posts at most one comment, and writes nothing when nothing changes. |
| Tickets.StoredExactly | demo-platform/otter-projects/lib/service.ts:373-408 | What one event stores: session, address and status as far as given, a pull request of at most 2000 characters, and for a new message a comment of at most 20,000 characters and a preview of at most 500; everything else stays. |
| Tickets.StatusExactly | demo-platform/otter-projects/lib/service.ts:410-419 | An event leaves a ticket done exactly when it was, or has a pull request of a finished session; in review with any other pull request; in progress on word of a session without one; and otherwise where it was. |
| Tickets.MovesForward | demo-platform/otter-projects/lib/service.ts:410-419 | The only moves are forward to progress, review or done. |
| Tickets.FinishedIsDone | demo-platform/otter-projects/lib/service.ts:410-419 | Once a finished session has a pull request the ticket is done, whatever steps follow. |
| Tickets.DispatchExactly | demo-platform/otter-projects/lib/service.ts:327-360 | A successful dispatch moves an unstarted ticket to progress and attaches the session, or marks it dispatched when there is neither session nor status; a failed one moves nothing. |
| Tickets.NeverBackwards | demo-platform/otter-projects/lib/service.ts:410-419 | An event never moves a ticket's status backwards. |
| Tickets.PrMeansReview | demo-platform/otter-projects/lib/service.ts:407-419 | A ticket with a pull request ends in review or done, and a pull request is never forgotten. |
| Tickets.RunPrMeansReview | demo-platform/otter-projects/lib/service.ts:407-419 | Over any run of events, dispatches and polls, a ticket that starts without a pull request is in review or done whenever it has one. |
| Tickets.TwiceIsOnce | demo-platform/otter-projects/lib/service.ts:369-427 | The same event twice in a row is the same as once. |
| Tickets.RunNeverBackwards | demo-platform/otter-projects/lib/service.ts:347-351 | Over any run of events, dispatches and polls the status never moves backwards. |
| Tickets.RemembersSuffix | demo-platform/otter-projects/lib/service.ts:390-392 | A ticket remembers exactly the last 500 posted message ids, so an event posts exactly when its message is not blank and its id not among them. |
| Tickets.PostedExactlyOnce | demo-platform/otter-projects/lib/service.ts:381-404 | With at most 500 distinct message ids every message is posted exactly once, in whatever order and however often it is delivered. |
| Tickets.OneCommentPerId | demo-platform/otter-projects/lib/service.ts:395-404 | A run appends exactly one comment for every id it posts, carrying the message that the id came with. |
| Tickets.PostsExactly | demo-platform/otter-projects/lib/service.ts:381-392 | After any run an event posts exactly when its message is not blank and its id is not among the last 500 posted. |
| Tickets.RedeliveredAfterLimit | demo-platform/otter-projects/lib/service.ts:390-392 | A concrete run: after 500 messages a redelivery of the first is ignored, after 501 it is posted again. |
| Tickets.ForgottenBeyondLimit | demo-platform/otter-projects/lib/service.ts:390-392 | Beyond 500 ids the oldest is forgotten, and its redelivery is posted again. |
| Tickets.TicketService.PollTicket | demo-platform/otter-projects/lib/poller.ts:29-62 | A poll applies the unseen agent messages in order of time, then the session state, then the time stamp. |
| Tickets.PollIsARun | demo-platform/otter-projects/lib/poller.ts:29-62 | A poll of a ticket is a run of steps on that ticket alone, its messages in the order of time; it adds exactly the comments of that run. |
| Tickets.PollMirrorsAll | demo-platform/otter-projects/lib/poller.ts:29-62 | As long as the remembered ids and the unseen agent messages together number at most 500, every agent message that is not blank is remembered after a poll, and no remembered id is forgotten. |
| Tickets.PollAttaches | demo-platform/otter-projects/lib/poller.ts:29-62 | After a poll the ticket carries the session, its address, status and pull request as far as they are given and the time of the poll, and is done when the session is finished and there is a pull request. |
| Tickets.PollComment | demo-platform/otter-projects/lib/poller.ts:29-62 | Every comment that a poll adds is the agent's, and mirrors text and time of an unseen agent message of the session. |
| Checkout.ControlTable.Checkout | demo-platform/dashboard/lib/control.ts:140-212 | Undisturbed, a checkout succeeds exactly when the id is unlocked and its record absent, free or failed; a losing call leaves the table as it was. |
| Checkout.RecordsApart | demo-platform/dashboard/lib/control.ts:166-185 | Records of different ids under one host share no address, database or namespace. |
| Checkout.CheckoutWrites | demo-platform/dashboard/lib/control.ts:140-185 | The lock lasts the given seconds or 900; the record is deploying, carries the request's attributes, its times are now, it expires after the given seconds, and its addresses, database and namespace name the id. |
| Checkout.UndisturbedCall | demo-platform/dashboard/lib/control.ts:140-212 | The two puts of a call in a row, in the interleaved model, do what a whole checkout does. |
| Checkout.SuccessesSeparated | demo-platform/dashboard/lib/control.ts:187-212 | For any interleaving, with the lock expiring or deleted at any step, between two successful checkouts the record was freed, marked failed or deleted. |
| Checkout.LosersTouchNothing | demo-platform/dashboard/lib/control.ts:140-212 | No step of a call that does not win changes the record. |
| Checkout.WinnersRecord | demo-platform/dashboard/lib/control.ts:187-226 | Between a success and the next event that frees or rewrites the record, the record is the winner's but for its status and last-seen time. |
| Checkout.ExclusiveStepExactly | demo-platform/dashboard/lib/control.ts:144-164 | A step breaks exclusion between the two puts exactly when it removes the lock while a call is between its puts. |
| Checkout.ExclusiveExactly | demo-platform/dashboard/lib/control.ts:144-219 | At most one call is between its puts at every moment of a run if and only if the lock never disappears while a call is between its puts; a winner's lock may expire. |
| Checkout.HasLockExactly | demo-platform/dashboard/lib/control.ts:144-164 | After taking the lock a call still has it exactly when no event has removed the lock since. |
| Checkout.ForeignReleaseExactly | demo-platform/dashboard/lib/control.ts:203-219 | The release of a losing call deletes a lock that is not its own exactly when a lock exists and its own was removed since it took it. |
| Checkout.ReleaseDeletesForeignLock | demo-platform/dashboard/lib/control.ts:203-219 | Both happen in one run: an expiry, a losing call that deletes another call's lock, and two calls between the puts. |
| Routing.JoinAssociative | security/dast/harness/route_inventory.py:150-152 | Joining two joined lists of path parts is joining all parts. |
| Routing.Ktor | security/dast/harness/route_inventory.py:287-322 | The loops over files and characters compute the scan of the blanked text. |
| Routing.ScanNodes | security/dast/harness/route_inventory.py:306-321 | Scanning printed blocks at any nesting adds exactly their routes and restores the stack. |
| Routing.BlankedPrint | security/dast/harness/route_inventory.py:284-300 | Blanking the string literals of a printed tree prints the tree with blanked literals, every position kept. |
| Routing.HeadWithPath | security/dast/harness/route_inventory.py:297-300 | What stands before a brace may quote a path with parameters: its literal is closed and its braces do not count. |
| Routing.ScanPrinted | security/dast/harness/route_inventory.py:287-322 | Scanning the text of a printed tree of blocks, literals and all, yields in source order one route per method block, its path the join of the enclosing route segments and its own. |
| DepsTree.VersionKeyOf | security/deps/harness/deps_check.py:169-177 | The loops compute the key of a version, whose meaning the next rows give. |
| DepsTree.PrintedIsPlain | security/deps/harness/deps_check.py:169-177 | A version that prints one to four numbers in decimal, leading zeros allowed, and perhaps a qualifier, is plain; its key holds exactly those numbers and the qualifier. |
| DepsTree.PlainIsPrinted | security/deps/harness/deps_check.py:169-177 | Every plain version prints such numbers. |
| DepsTree.PrintedComparison | security/deps/harness/deps_check.py:169-177 | Comparing the keys of two such versions never fails and is comparing the printed numbers, padded with zeros, and then the qualifiers. |
| DepsTree.PartsExactly | security/deps/harness/deps_check.py:169-177 | Of any version, a part is a number in the key exactly when it is a non-empty run of digits; comparing a number with a text fails, and texts are compared as such. |
| DepsTree.NineBeforeTen | security/deps/advisory.yaml:16-17 | Inputs: 1.9 lies in [1.5, 1.10.0), and 1.10 does not. |
| DepsTree.PlainComparison | security/deps/harness/deps_check.py:169-177 | Comparing keys of versions with one to four numeric parts never fails and follows the four numbers and then the qualifier. |
| DepsTree.BeforeTotal | security/deps/harness/deps_check.py:169-177 | That order is total and asymmetric. |
| DepsTree.BeforeTransitive | security/deps/harness/deps_check.py:169-177 | That order is transitive. |
| DepsTree.QualifierFirst | security/deps/harness/deps_check.py:169-177 | A qualified version sorts before the release exactly when its qualifier starts below `~`. |
| DepsTree.TildeIsNotFirst | security/deps/harness/deps_check.py:169-177 | An input: `1-~` does not sort before `1`. |
| DepsTree.VulnerableExactlyInRange | security/deps/harness/deps_check.py:113-114 | A plain version is vulnerable exactly when the numbers it prints lie in the printed range [introduced, fixed). |
| DepsTree.ParseTree | security/deps/harness/deps_check.py:364-411 | The loop over lines computes the walk, or stops at the first version that cannot be compared. |
| DepsTree.WalkListing | security/deps/harness/deps_check.py:364-411 | On the listing of any trees, with nodes that are skipped, constrained or without a version, the walk finds each occurrence once, misses none, invents none, and reports every unreadable one; all reported parents are the true ones exactly when no unrecorded node directly brings in the artifact after a recorded line of its own depth. |
| DepsTree.SiblingIsNamed | security/deps/harness/deps_check.py:364-411 | An input: an artifact under a skipped project is reported as brought in by the dependency that was printed before the project. |
| DepsTree.Gate | security/deps/harness/deps_check.py:549-588 | The gate returns 2 exactly when some module is not judged, and 0 exactly when all are and no dependency of the artifact prints numbers that lie in the printed range [introduced, fixed). |
| Coverage.MatchesExactly | security/dast/harness/dast_coverage.py:78-90 | A route declared by segments matches a request exactly when the method is the route's, there are as many segments, and each is the declared one or stands for a placeholder. |
| Coverage.CloserByHoles | security/dast/harness/dast_coverage.py:93-106 | Of two declared paths the one with fewer placeholders is closer, and of two with as many the first as text. |
| Coverage.BestIsClosest | security/dast/harness/dast_coverage.py:93-106 | The chosen route matches and no matching route has fewer wildcards or, at equal count, a smaller path; none is chosen only when none matches. |
| Coverage.VerdictsExactly | security/dast/harness/dast_coverage.py:109-179 | An entry is reached exactly when some request without a status, or with one below 500 that is no redirect and not 429, landed on a closest matching route of its method and path; attacked when one of a written probe did, authenticated when one made as a caller did. |
| Coverage.GradeScan | security/dast/harness/dast_coverage.py:146-179 | The dictionaries and loops credit each delivered request to all entries of the method and path it landed on. |
| Coverage.ReachedAndMissedPartition | security/dast/harness/dast_coverage.py:166-179 | Reached and missed routes partition the inventory. |
| Coverage.DeeperWithinReached | security/dast/harness/dast_coverage.py:166-179 | Attacked and authenticated routes were reached. |
| Coverage.MoreRequestsNeverUnreach | security/dast/harness/dast_coverage.py:157-179 | More requests never take a verdict back. |
| Coverage.SameBestMatch | security/dast/harness/dast_coverage.py:93-106 | The method and path a request is credited to depend only on the set of declared methods and paths. |
| Coverage.VerdictPerSurface | security/dast/harness/dast_coverage.py:150-155 | Reordering or repeating inventory entries changes no verdict of a method and path. |

## Left out

- The migration stages, drivers and command lines, the session and claim logic of the ticket store, HTTP, DynamoDB,
  Postgres and Oracle clients: calls into them are atomic steps or parameters.
- SHA-256, SHA-1 and UUIDs: function parameters or uninterpreted; the properties are about their inputs. The id of a
  created subscription that already exists is a rolled-back transaction.
- Regular expressions: `Copybook` takes the match of an item clause as a function parameter, `Routing` the positions of
  openers, `DepsTree` the matched lines, `TypeMap` the parsed target types. The pattern of string literals is modelled.
- Loading of YAML, the override rules of the type map, and the SQL text builders of the hash.
- Text encodings are arbitrary injective maps from single bytes to characters; no code page is written out.
- Number texts that `int()` and `Decimal()` accept beyond plain ASCII digits are functions in `Convert.Python`; NaN and
  infinities do not occur in decimals.
- Calendar.ParseTsOfTs12: `_ts` is modelled on plain digit fields; blanks, signs and underscores that `int()` also
  accepts are not.
- Hashing.ColumnAgreement: years below 1000 are written without leading zeros, as the C library of the job's platform
  does; other platforms pad. Dates in decimal digits outside ASCII, which `\d` also matches and a code page such as cp864
  can produce, are not covered.
- Timestamps.AcceptedIsCanonical: the same holds of timestamps in decimal digits outside ASCII.
- Cohorts.AcceptedSizesValid: the scale is a real number, so binary rounding of `n * scale` is not modelled.
- SeedFiles.PlantedSelection: of a planted row only the columns that selection, totals and keys depend on are modelled.
- SeedFiles.GenerateFileaud: record bytes are a parameter of the stated record length; `AuditRecords` gives them row by
  row.
- PolicyRecords.PolicyRecordReads: the description is any text of at most sixty printable characters.
- ArchiveRecords.GeneratedRecordConverts: identifiers and digests come from given functions that print the formats of the
  source; the two codecs write every printable ASCII character.
- OracleSeed.SeedIsRestartable: one table at a time; that the driver drains a process pool is a step that waits for all
  chunks, and sessions see each other's rows only after a commit.
- RateLimit.AtMostTwoWindows: a check and the failure it admits are one step, as in a login handler that does not
  yield between them.
- Billing.Repository.ChangePlan: rows are listed in the order of insertion; the database does not promise one.
- Tickets.TicketService.ApplyDevinEvent: one atomic step on one ticket; trimming removes the ASCII white space only,
  keys arrive upper-cased, and one clock value serves a whole event.
- Tickets.TicketService.PollTicket: one ticket of the poll; errors of the agent's API skip the ticket and are not
  modelled.
- Checkout.SuccessesSeparated: one tenant id; other attributes of the record change only through steps that keep its
  status.
- DepsTree.ParseTree: versions with digits outside ASCII, or more digits than `int()` converts, are not modelled.
- Route extraction for the other frameworks, report rendering, telemetry, the ETL scripts, the user interfaces and the
  infrastructure: they would only add easy members.
