# yusam-hub/helpers: `OpenSsl`, `DotArray` and `Numeric` in Dafny

This project models three helper classes of the PHP library yusam-hub/helpers
and proves properties of the model.

- **`OpenSsl`** (`openssl.dfy`). It covers the PEM constants and the detection
  of a `PUBLIC KEY` block's line endings (`isPublicKeyLinuxEOL`). It covers how
  `clearPublicKey` re-wraps such a block, the constructor, and the control flow
  of the four RSA calls: the empty-key guard, the loop that drains the OpenSSL
  error queue, the error messages, and the base64 framing. The OpenSSL extension
  and base64 are a class `Engine`. Its answers are given as uninterpreted
  functions. It holds the FIFO error queue that `openssl_error_string` pops,
  and a log of every OpenSSL call made into it (the base64 calls are not logged). Every primitive may queue messages,
  whether it succeeds or fails. So the message an exception reports can be a
  stale one left by an earlier call, as in the extension itself.
- **`DotArray`** (`dot_array.dfy`). This is a class whose one field,
  `sourceArray`, is a nested PHP array, modelled as a recursive datatype of
  ordered entries. It covers `import`, `all`, `has`, `get`, and `set`. `set`
  builds a one-path array (its loop is the method `BuildPath`) and merges it
  with `array_merge_recursive`.
  `recursiveKSort` and `getDotKeys`/`fetch` are covered too. `has`, `get`,
  `set`, `recursiveKSort` and `fetch` keep the source's loops and recursion, and
  each is proved against a specification function. That function's properties
  are proved as lemmas.
- **`Numeric`** (`numeric.dfy`). It covers `is_between` and `clamp` on integers.

The file `php.dfy` models the PHP builtins these classes use, and `wrappers.dfy`
holds `Option` and `Result`:

- `empty` on strings, and string truthiness;
- `strpos`, `strstr` and `substr`;
- `trim`/`ltrim`/`rtrim` with a one-character list;
- `explode` and `implode` on a one-character separator;
- the decimal string of an integer.

Where the model departs from the documented behaviour it follows the code:

- `get("0")` returns the whole array, because `empty("0")` holds.
- `has` and `get` trim dots from the key.
- `set` on an existing scalar key collects both values into a list rather than
  overwriting, because that is what `array_merge_recursive` does.

## Model

| member | source | states |
|---|---|---|
| Numeric.IsBetween | src/Numeric.php:6-9 | a value can only be between bounds that are not inverted |
| Numeric.IsBetweenInclusive | src/Numeric.php:6-9 | both bounds are inside their range whenever it is not inverted, and an inverted range holds no value |
| Numeric.Clamp | src/Numeric.php:11-17 | inverted bounds (`min > max`) and only those fail, with both bounds in the error; otherwise the result lies between the bounds, is `min` below the range and `max` above it |
| Numeric.ClampFixesExactlyTheBetween | src/Numeric.php:6-17 | with valid bounds, `clamp` returns its argument unchanged if and only if `is_between(current, min, max)` |
| Numeric.ClampIdempotent | src/Numeric.php:11-17 | clamping an already clamped value gives the same value |
| OpenSsl.PemLineLengths | src/OpenSsl.php:10-14 | the BEGIN line with its line break is 27 characters with LF and 28 with CRLF, which is where `clearPublicKey` starts the body; the footer it appends is 26 or 28 characters |
| OpenSsl.HeadersExclusive | src/OpenSsl.php:33-44 | no key starts with both the LF and the CRLF header, so at most one branch of `isPublicKeyLinuxEOL` can be taken |
| OpenSsl.IsPublicKeyLinuxEol | src/OpenSsl.php:31-48 | `true` iff the key starts with the header and LF and contains the END marker followed by LF; `false` iff the same holds for CRLF; `null` iff neither holds |
| OpenSsl.MixedLineEndingsUndetermined | src/OpenSsl.php:31-48 | a header with one line break and no END marker with that line break gives `null` |
| OpenSsl.UniformBlocksDetected | src/OpenSsl.php:31-48 | a block written throughout with LF is detected as `true`, one written with CRLF as `false`, whatever its body |
| OpenSsl.ClearPublicKey | src/OpenSsl.php:55-68 | for any input the result starts with the BEGIN line and ends with the END line, both written with the chosen line break |
| OpenSsl.ClearPublicKeyKeepsFirstBlock | src/OpenSsl.php:55-68 | when the key starts with the header and its first footer follows it, the result is exactly the key cut right after that footer |
| OpenSsl.ClearPublicKeyIdempotent | src/OpenSsl.php:55-68 | on such a key, re-wrapping a second time changes nothing |
| OpenSsl.DrainedMessagesUnique | src/OpenSsl.php:121-123 | the messages the error loop collects are uniquely determined: the truthy prefix of the queue that stops at its end or at a falsy message |
| OpenSsl.JoinedErrorsListEveryMessage | src/OpenSsl.php:119-124 | when every queued message is truthy and has no line break, the loop empties the queue, and the "\n"-joined text splits back into exactly the queued messages |
| OpenSsl.DrainErrors | src/OpenSsl.php:120-123 | the loop returns the truthy prefix of the queue, pops it and the falsy message that stopped it, and calls `openssl_error_string` once per message plus once more |
| OpenSsl.OpenSsl.constructor | src/OpenSsl.php:74-81 | both keys hold the given arguments |
| OpenSsl.OpenSsl.EncryptWithPrivate | src/OpenSsl.php:113-132 | with an empty key (`null`, "" or "0"), fails with "private key empty" and touches no engine state; a key that does not parse fails with the drained messages joined by "\n"; a failed encryption fails with the oldest message in the queue after both calls; otherwise it returns the cipher text, base64-encoded if asked, and leaves the queued messages in place; the exact engine call sequence and the queue afterwards in each case |
| OpenSsl.OpenSsl.EncryptWithPublic | src/OpenSsl.php:140-160 | the same as `encryptWithPrivate` with the public key and public encryption |
| OpenSsl.OpenSsl.DecryptWithPublic | src/OpenSsl.php:168-184 | with an empty key, fails with "public key empty" and touches no engine state; a key that does not parse, or a failed decryption, fails with the oldest message in the queue at that point; otherwise it returns the plain text of the (optionally base64-decoded) input; the call sequence and the queue afterwards in each case |
| OpenSsl.OpenSsl.DecryptWithPrivate | src/OpenSsl.php:192-210 | the same as `decryptWithPublic` with the private key and private decryption |
| DotArray.Assign | src/DotArray.php:100-104 | `$a[$k] = $v`: afterwards `k` is found holding `v`; every existing key stays in its place, and every other entry is unchanged; an existing key adds no entry, and a new key is appended at the end with nothing else |
| DotArray.Segments | src/DotArray.php:48 | `explode(".", trim($dotKey, '.'))` gives at least one segment (the same split is made at lines 70 and 94) |
| DotArray.SegmentsRejoin | src/DotArray.php:48 | no segment holds a dot, and joined with dots the segments give back the trimmed key |
| DotArray.Resolve | src/DotArray.php:50-56 | the `foreach`/`isset` walk of `has` and `get` (lines 72-78): a value reached by at least one step is never `null` |
| DotArray.Merge | src/DotArray.php:108 | `array_merge_recursive`: every destination entry keeps its place and key, and stays unchanged unless the source has the same string key; every string key of the source is present afterwards; at most one entry is added per source entry |
| DotArray.MergeEntry | src/DotArray.php:108 | one source entry: a string key already present adds no entry; a new entry goes at the end, holding the source value under a key the destination did not have |
| DotArray.Combine | src/DotArray.php:108 | two values under one string key become an array: an old array keeps its keys in place, an old scalar or `null` stays first under index 0, a new scalar is appended last, and every string key of a new array is present |
| DotArray.Cast | src/DotArray.php:30 | `(array)` gives an array unchanged, `null` as the empty array and a scalar as `[0 => scalar]` |
| DotArray.DotArray.constructor | src/DotArray.php:14-17 | the new object holds exactly what `import` of the argument gives |
| DotArray.DotArray.Import | src/DotArray.php:23-32 | another object's array is taken over, an array is taken as is, and anything else goes through the `(array)` cast |
| DotArray.DotArray.All | src/DotArray.php:37-40 | returns the held array |
| DotArray.DotArray.Has | src/DotArray.php:46-58 | true iff every segment of the dot-trimmed key is set (present and not `null`), each in the value reached by the ones before |
| DotArray.DotArray.Get | src/DotArray.php:65-80 | an `empty()` key returns the whole array; otherwise returns the value the path reaches, or `default` where a segment is not set |
| DotArray.DotArray.Set | src/DotArray.php:89-116 | an `empty()` key returns false and changes nothing; otherwise returns true and the array becomes the `array_merge_recursive` of the old array with the one-path array for the key, deep-sorted if asked |
| DotArray.DotArray.BuildPath | src/DotArray.php:95-106 | the loop leaves, for keys k1..kn, the array `[k1 => [k2 => ... [kn => value]]]` with one entry per level |
| DotArray.SegmentsIgnoreOuterDots | src/DotArray.php:48 | the path segments ignore any dots added before and after the key |
| DotArray.SetOnFreshPathResolves | src/DotArray.php:94-108 | after the merge `set` performs (without the sort), a path that held nothing yet leads to the value set, unless it is `null` |
| DotArray.SetKeepsTopLevel | src/DotArray.php:107-108 | the merge `set` performs (without the sort) keeps every top-level key where it was and every other top-level entry unchanged; it adds at most one entry, under the first segment |
| DotArray.SetOnScalarCollects | src/DotArray.php:107-108 | `set` on a key that holds a scalar keeps the old scalar and the new one side by side, under the indices 0 and 1 |
| DotArray.MergeWellFormed | src/DotArray.php:108 | `array_merge_recursive` of two arrays without repeated keys has no repeated key, at any depth |
| DotArray.SetKeepsWellFormed | src/DotArray.php:107-113 | `set`, with or without the sort, keeps the array free of repeated keys at every depth |
| DotArray.KSort | src/DotArray.php:128 | `ksort`: the result is in ascending key order and a permutation of the entries |
| DotArray.DotArray.RecursiveKSort | src/DotArray.php:122-129 | sorts every nested array, then the array itself, giving `SortDeep` of the input |
| DotArray.SortDeepSorted | src/DotArray.php:122-129 | after the recursive sort, the keys are ascending at every level |
| DotArray.SortDeepKeys | src/DotArray.php:122-129 | the recursive sort keeps the set of top-level keys |
| DotArray.SortDeepEntries | src/DotArray.php:122-129 | the sorted array is a permutation of the entries with their nested arrays sorted; keys and scalar entries are unchanged |
| DotArray.SortDeepFind | src/DotArray.php:122-129 | in an array without repeated keys, the sorted array holds exactly the same keys, each with its own entry, sorted below |
| DotArray.ResolveSorted | src/DotArray.php:122-129 | in an array without repeated keys, every path walks through the sorted array exactly as through the unsorted one, and reaches the sorted form of the same value |
| DotArray.SetSortedResolvesAlike | src/DotArray.php:107-113 | `set` with the sort leaves every path set exactly where `set` without it does, leading to the same value with its arrays sorted |
| DotArray.SetSortedOnFreshPathResolves | src/DotArray.php:94-113 | after `set` with the sort, a path that held nothing yet leads to the value set (its arrays sorted), unless it is `null` |
| DotArray.DotArray.GetDotKeys | src/DotArray.php:134-141 | lists, in depth-first pre-order, every entry's key path joined with dots (with the fetch correction below) |
| DotArray.DotArray.FetchAsWritten | src/DotArray.php:149-163 | `fetch` as written appends to `out` the listing in which the prefix is dropped below any `empty()` dot key |
| DotArray.DotArray.Fetch | src/DotArray.php:149-163 | the corrected `fetch` appends to `out` the listing with the prefix dropped only at the top level |
| DotArray.ListingRendersPaths | src/DotArray.php:149-163 | the corrected listing is exactly every entry's key path, written with dots after the prefix, in depth-first pre-order |
| DotArray.PathsCount | src/DotArray.php:158-162 | the listing has one line for each entry at any depth |
| DotArray.PathsDistinct | src/DotArray.php:158-162 | in an array without repeated keys, no key sequence occurs twice among the listed paths |
| DotArray.PathsStartWithKeys | src/DotArray.php:158-162 | each listed path starts with a top-level key of the array |
| DotArray.AsWrittenAgreesBelow | src/DotArray.php:159 | below a dot key that is not `empty()`, the code as written lists the same as the corrected code |
| DotArray.AsWrittenAgreesWithoutEmptyKeys | src/DotArray.php:159 | when no top-level key is written "" or "0", the code as written lists the same as the corrected code |
| DotArray.FetchAsWrittenDropsPrefix | src/DotArray.php:159 | for `[['a' => 'x']]` the code as written lists "0" and "a", and the corrected code lists "0" and "0.a" |
| DotArray.FetchAsWrittenDropsPrefixTwice | src/DotArray.php:159 | for `[[['a' => 'x']]]` the code as written lists "0", "0" and "a", and the corrected code lists "0", "0.0" and "0.0.a" |

## Left out

- `generateNewPrivatePublicKeys` (src/OpenSsl.php:90-105) is left out. It only creates a key pair and writes two files, which is I/O and key generation.
- RSA and base64 are uninterpreted engine functions. So round-trips such as decrypting what was encrypted are not stated: they depend on the cryptography, not on this code.
- `LINUX_EOL` is `PHP_EOL`. The model fixes it to "\n", the value on Linux. On Windows both constants would be "\r\n".
- OpenSsl.OpenSsl.DecryptWithPublic, OpenSsl.OpenSsl.DecryptWithPrivate: `base64_decode` is taken to always return a string. Its `false` result is not modelled.
- OpenSsl.ClearPublicKey: defined for every input, following PHP's `substr` and a missing footer counting as 0. Its properties beyond the header and footer are proved only for keys that start with the header and have the footer after it. On other input the source's result is of no documented use.
- OpenSsl.ClearPublicKeyIdempotent: requires the first footer to start after the whole header, not merely "at or after" it. For a block with an empty body (the BEGIN line directly followed by the END line), the footer's leading line break is the header's last character. The source and the model then both write the END line twice, and a second call changes the result again.
- Array keys: numeric strings are not turned into integers (PHP stores `"5"` as `5`). Path segments always look up string keys.
- Scalars other than strings (integers, floats, booleans) are kept as their string form. Objects other than `DotArray` are not modelled in the `(array)` cast or in `fetch`.
- DotArray.MergeEntry: integer keys of the *destination* are not renumbered by `array_merge_recursive`. The model leaves them in place, which agrees with PHP only when they are already 0, 1, 2, …. PHP's next free index also remembers deleted keys, and the model does not.
- DotArray.KeyLeq: integer keys sort before string keys, then by value, and string keys sort byte-wise. PHP 8 compares an integer with a non-numeric string as strings, which is not a total order on mixed keys.
- DotArray.DotArray.FetchAsWritten, DotArray.DotArray.Fetch: an integer key is listed as its decimal string. PHP lists the top-level integer keys as integers. `fetch` on a `DotArray` object inside the array is not modelled.
- DotArray.DotArray.Has, DotArray.DotArray.Get: `$source[$k]` is the entry that key lookup finds first. This is the only one in a well-formed array.
- DotArray.DotArray.Has, DotArray.DotArray.Get: a segment is looked up only in arrays. On a string, PHP's `isset($source[$key])` with an integer segment tests a string offset. So PHP's `has("name.0")` on `['name' => 'Bob']` is true and `get` returns "B", while the model gives false and `default`.
- DotArray.DotArray.GetDotKeys: lists with the corrected `fetch` (DotArray.DotArray.Fetch), not the code as written. On `[['a' => 'x']]` the source gives `0, a` and the model gives `0, 0.a`. The as-written listing is DotArray.DotArray.FetchAsWritten from "" (see Findings).
- DotArray.SetOnFreshPathResolves: stated only for paths that hold nothing yet. Where the path already holds a value, `array_merge_recursive` combines both values, which SetOnScalarCollects and MergeWellFormed describe.
- DotArray.PathsDistinct: distinct key sequences, not distinct lines. A key holding a dot renders like a nested path: `['a.b' => '1', 'a' => ['b' => '2']]` lists `a.b` twice, in the source as in the model.
- OpenSsl.Engine: the error queue is unbounded. The extension keeps pending errors in a fixed-size ring buffer that overwrites the oldest message. Once that many messages are pending, the oldest message and the drained messages differ from the model's.
- `is_between` and `clamp` are modelled on integers only. PHP's loose comparison of floats and strings is not modelled.
- src/functions.php is not part of this model.

## Findings

| source | as written | input that shows it | evidently intended | confidence | as-written member | corrected member |
|---|---|---|---|---|---|---|
| src/DotArray.php:159 | `empty($dotKey) ? $k : $dotKey . "." . $k` tests the prefix with `empty`. An entry below a top-level key `0` or `""` (for instance the first item of a top-level list) is listed without that key, and so is every entry below a further key `0` or `""` in that chain (on `[[['a' => 'x']]]` it lists `0, 0, a`); once the prefix is neither `""` nor `"0"` the listing is correct (DotArray.AsWrittenAgreesBelow) | `getDotKeys()` on `[['a' => 'x']]` lists `0, a` | `0, 0.a`: drop the prefix only at the top level | medium, not executed | DotArray.DotArray.FetchAsWritten, DotArray.FetchAsWrittenDropsPrefix, DotArray.FetchAsWrittenDropsPrefixTwice | DotArray.DotArray.Fetch, DotArray.ListingRendersPaths |
