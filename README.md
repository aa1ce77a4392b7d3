# date-reaper EOL decision core, in Dafny

date-reaper checks whether a release cycle of a piece of software has reached
its end of life. It asks the endoflife.date registry for the product's release
records and picks the record for the requested cycle. It then compares that
record's `eol` date with today's date. This project models the decision logic
of `cmd/check.go`:

- `capitalize`, the helper that upper-cases the first letter of the software name.
- `CheckVersion`, which scans the registry's records in order and returns the first
  one whose `cycle` equals the requested version. Before it scans, it fails on a
  request, status or decoding failure.
- The `check` command, which resolves the untyped `support` value to a display
  string. It then classifies the version with Go's string comparison `v.EOL > now`
  and applies the exit policy: EOL always fails with "EOL"; with
  `--fail-on-unsupported`, a version that is *not* EOL fails too.
- The `check-chunk` command's loop, which prints one line per variant in order.
  It classifies with `v.EOL <= now`, prints the raw `support` value, reports a
  failed lookup and goes on to the next variant.

Files:

- `lex.dfy` (module `Lex`) defines Go's byte-wise string order. Characters are
  compared by code point, which for Unicode scalar values is the order of their
  UTF-8 bytes. It proves that this is a strict total order and that it agrees with
  the textbook definition of lexicographic order.
- `iso_date.dfy` (module `IsoDate`) proves that for zero-padded `YYYY-MM-DD`
  strings, that order is (year, month, day) order. The `eol` comparisons depend on
  this.
- `check.dfy` (module `Check`) holds the records, the registry answer, the errors,
  and the operations.
- `check_properties.dfy` (module `CheckProperties`) relates the operations to each
  other: the exit policy, the agreement between `check` and `check-chunk`, the
  meaning of the date comparison, and worked examples.

The network and the clock are parameters. A `Response` is the registry's answer:
the request failed, or the server answered with a status and a body that decoded
or did not. `today` is the string `time.Now().Format("2006-01-02")` would have
returned. Each iteration of the chunk loop fetches again and reads the clock
again, so `CheckChunk` takes one `Env` (response, today) per variant.

Four behaviours of `cmd/check.go` that one might expect to be otherwise are modelled as the code has them:

- `support: true` resolves to the empty string, not "Unknown". The type switch
  never assigns the display value for `true` (cmd/check.go:134-137).
- The chunk loop prints the raw `support` value, not the resolved one
  (cmd/check.go:104).
- `--fail-on-unsupported` makes `check` fail exactly when the version is *not*
  EOL (cmd/check.go:143-146).
- `--fail-on-missing` is declared but never read. A missing version fails with
  "Version not found" whether the flag is set or not.

## Model

| member | source | states |
|---|---|---|
| `Check.ToUpperAscii` | cmd/check.go:42 | `strings.ToUpper` on one ASCII character: the result is never a lower-case letter, a lower-case letter moves down by 32 to its capital, and any other character is unchanged |
| `Check.Capitalize` | cmd/check.go:38-43 | the empty word gives the empty word; otherwise the length is kept, everything after the first character is kept, and the first character is no longer lower-case (a lower-case letter becomes its capital; a word that does not start with one is unchanged) |
| `CheckProperties.CapitalizeIdempotent` | cmd/check.go:38-43 | capitalizing an already capitalized word changes nothing |
| `Check.FirstMatch` | cmd/check.go:68-72 | the index found holds the requested cycle and no earlier record does; no index is found exactly when no record has the cycle |
| `Check.Lookup` | cmd/check.go:53-73 | a request failure, a non-200 status and a decoding failure are returned in that order and before any scan; otherwise the result succeeds exactly when some record has the cycle, and then it is a record of the list with that cycle and no earlier record has that cycle; a scan that finds nothing gives "Version not found" |
| `Check.CheckVersion` | cmd/check.go:45-74 | the early-returning loop over the records returns exactly what `Lookup` specifies |
| `CheckProperties.ExampleFirstMatchWins` | cmd/check.go:68-72 | with two records for cycle "14", the first one is returned |
| `Check.ResolveSupport` | cmd/check.go:130-140 | a string is shown verbatim; the result is "No Support" exactly for `false` (or that very string); "Unknown" exactly for an absent, null or non-string non-boolean value (or that string); "" exactly for `true` (or the empty string) |
| `Check.ClassificationsAgree` | cmd/check.go:143 | the chunk loop's `v.EOL <= now` (line 103) holds exactly when `check`'s `v.EOL > now` fails, and an EOL date equal to today counts as EOL |
| `Lex.LessOrEqualIsNotGreater` | cmd/check.go:103 | Go's `a <= b` on strings holds exactly when `b < a` does not |
| `Lex.Trichotomy` | cmd/check.go:143 | Go's string `<` is irreflexive and asymmetric, and any two strings are equal or ordered one way |
| `Lex.LessTransitive` | cmd/check.go:143 | Go's string `<` is transitive |
| `Lex.LessCharacterization` | cmd/check.go:143 | Go's string `<` holds exactly when the left string is a proper prefix of the right, or the two agree up to a position where the left has the smaller character |
| `IsoDate.LexOrderIsDateOrder` | cmd/check.go:142 | for zero-padded `YYYY-MM-DD` strings, string order is (year, month, day) order |
| `CheckProperties.EolIsChronological` | cmd/check.go:142-143 | for well-formed dates, a version is not EOL exactly when its EOL date is a later day than today, and EOL otherwise |
| `Check.CheckCommand` | cmd/check.go:122-153 | a run that returns no error has printed the not-EOL line; any printed line is for a record that was found, and it carries the capitalized name, the version, the record's EOL date and the resolved support value |
| `CheckProperties.ExitPolicy` | cmd/check.go:143-152 | a failed lookup is returned unchanged with nothing printed; an EOL version prints the EOL line and fails with "EOL" whatever the flags; the run succeeds exactly when the version is not EOL and `failOnUnsupported` is unset; it fails with "not supported anymore" exactly when the version is not EOL and the flag is set, and then prints nothing |
| `CheckProperties.FailOnMissingIgnored` | cmd/check.go:160 | the `failOnMissing` flag never changes the outcome, and a cycle absent from a decoded list fails with "Version not found" in both cases |
| `CheckProperties.ExampleEolNoSupport` | cmd/check.go:130-152 | node 14 with EOL 2024-04-30 and support `false`, checked on 2025-01-01, prints the EOL line with "No Support" and fails with "EOL" |
| `CheckProperties.ExampleNotEol` | cmd/check.go:130-148 | node 20 with EOL 2026-04-30 and support "2025-10-01", checked on 2025-01-01, prints the not-EOL line with support end 2025-10-01 and succeeds |
| `CheckProperties.ExampleVersionNotFound` | cmd/check.go:125-128 | cycle 99 absent from the list fails with "Version not found", even with `--fail-on-missing` set |
| `Check.VariantLine` | cmd/check.go:95-107 | a variant's line names the variant; it is an error line exactly when the lookup failed, carrying that error; otherwise it carries the record's EOL date; it is an EOL line exactly when the record was found and its EOL date is not after today (`v.EOL <= now`), and then it carries the raw `support` value |
| `Check.CheckChunk` | cmd/check.go:94-110 | exactly one line per variant, in input order, each the line `VariantLine` gives for that variant and its iteration's registry answer and date; a failed lookup does not stop the loop |
| `CheckProperties.ChunkAgreesWithCheck` | cmd/check.go:94-108 | for the same registry answer and date, a chunk error line is the same failure `check` returns; an EOL line occurs exactly when `check` fails with "EOL"; a not-EOL line occurs exactly when `check` succeeds or fails only because of `failOnUnsupported` |
| `CheckProperties.ExampleStatusErrorLine` | cmd/check.go:59-61 | a 503 answer turns the variant's line into an error line with that status |

## Left out

- The HTTP exchange (cmd/check.go:46-61) is a `Response` parameter. This covers building the URL and the request, the User-Agent header, sending, and closing the body. A failure to build the request and a failure to send it are both `RequestFailed`.
- JSON decoding (cmd/check.go:63-66) is the `Body` of the response. The record fields no decision reads (`releaseDate`, `latest`, `latestReleaseDate`, `lts`) are not in the model.
- Reading and parsing the chunk file (cmd/check.go:83-92) is left out. `CheckChunk` takes the decoded variants, so the two error returns for an unreadable file and for bad YAML are not modelled. `Variant.args` is not read by any logic and is dropped.
- The clock (cmd/check.go:102, 142) is the `today` parameter, one per chunk iteration.
- The `tool` flag only selects the registry URL. That is part of the abstracted request, so `CheckChunk` has no tool parameter.
- Printed and returned text is modelled by kind: `Report`, `ChunkLine` and `Error` carry the values the format strings interpolate, not the formatted strings.
- `CheckChunk` does not model the command's `return nil`. The method returns only the lines, and nothing in it can fail.
- Cobra command and flag registration (cmd/check.go:156-164) and all of cmd/root.go are left out. `Execute` only turns an error into exit status 1.
- Check.Capitalize: requires the first character to be ASCII. Go upper-cases `string(word[0])`, which turns a lone non-ASCII byte into a Latin-1 rune, so the bytes it produces there are not modelled.
- Check.CheckCommand: inherits that requirement on the software name's first character.
- Repeating a check against an unchanged registry answer gives the same result. Every operation here is a function of its inputs, so this has no separate lemma.
