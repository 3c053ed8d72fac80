# Credential helper scripts, modelled in Dafny

The repository has two command-line helpers around OAuth client credentials.

- **Credential Writer** (`add_youtube_credentials.py`). It takes a project name, a client id and a client secret. It derives the keys `<project>_YouTube_Client_ID` and `<project>_YouTube_Client_Secret`. It reads the plaintext store `api_keys.txt` with `readlines` and drops every line that starts with `<key>=` for either key. It then appends `<id_key>=<id>\n` and `<secret_key>=<secret>\n` and writes the lines back with `writelines`. The confirmation shows only `client_secret[:10]` followed by `...`. `main` exits with status 1 unless it gets exactly three arguments.
- **Credential Extractor** (`extract_credentials.py`). It loads a secrets document exported by the Google Cloud console. It uses the `installed` section if there is one, else the `web` section. It reads `client_id` and `client_secret` with `.get` and requires both to be truthy. On success `main` makes two `print` calls, `clientId=<id>` and then `clientSecret=<secret>`, each value rendered by `str()`. On failure it exits with status 1 and prints no credential lines. `main` prints its usage text and exits with status 1 unless it gets exactly one argument.

Files:

- `store_text.dfy`, module `StoreText`: the store file as text. `ReadLines` models `readlines`: it cuts the text after every `'\n'`. `Concat` models `writelines`: it joins the lines with no separator. Lemmas show the two agree on every line sequence that `readlines` can produce.
- `credential_writer.dfy`, module `CredentialWriter`: the key derivation, the stale-line filter `RemoveStale`, the upsert `Upsert` and the secret preview, all as functions. `AddYouTubeCredentials` is a method that builds the line list step by step like the source. `RunWriter` models `main`. The store file is a parameter (`Absent` or `Present(text)`), and each method returns the new store.
- `credential_extractor.dfy`, module `CredentialExtractor`: a JSON value type `JValue` and Python truthiness `Truthy`. It models Python's `in`, indexing and `.get` on parsed values exactly as the interpreter applies them. `Lookup` follows the branches of `extract_credentials` and records which one ended it. `ExtractCredentials` gives the source's result: the credentials, or `None` on every failure. `Extractable` defines success directly on the document, independent of `Lookup`. `RunExtractor` models `main`; it takes a `load` function from path to load outcome.

Behaviour worth knowing:

- **Isolation needs names without `=`.** The filter compares raw prefixes. A run for project `P` therefore deletes the id entry of a project named `P_YouTube_Client_ID=Q` (`EqualsSignBreaksIsolation`). When neither project name contains `=`, the upsert of the line list never removes or alters another project's lines (`EntryBelongsToOneProject`, `UpsertIsolatesProjects`). In the file written back this also needs the store to end with `'\n'`; see the next bullet. The intended behaviour is that unrelated lines are never touched. The model follows the code and proves that property under this condition.
- **A store whose last line has no `'\n'` fuses lines.** The new id entry is written straight after that line. Reading the store back yields the old last line and the id entry as one line (`UnterminatedLastLineFuses`). The fused line can be another project's entry. With the store `A_YouTube_Client_Secret=s`, a run for project `B` with (`c`, `d`) reads back as `A_YouTube_Client_Secret=sB_YouTube_Client_ID=c` and `B_YouTube_Client_Secret=d`. Project A's secret is altered, and B's id key has no line of its own (`FusionAltersOtherProject`, `FusionExample`). When the store ends with `'\n'` and no argument contains `'\n'`, reading it back gives exactly the upserted lines. In that case a second run for the same project behaves as if the first had not happened (`RereadWrittenStore`, `RerunKeepsLatest`).
- **A `'\n'` inside an argument adds lines.** The arguments are written without any check. A secret `x\n<rest>` is read back as the secret entry `...=x` and a separate line `<rest>`. A later run for the same project keeps that line unless it is one of the project's entries (`NewlineInSecretAddsLine`). If `<rest>` starts with `<id_key>=`, the store then holds two id lines for the project. That breaks the intended rule of one line per key (`NewlineInSecretDuplicatesIdKey`, `NewlineInSecretExample`).
- **Short secrets are shown whole.** The preview is `client_secret[:10]`, so a secret of at most ten characters is printed in full before the `...` (`PreviewShowsAtMostTen`). The intended behaviour is that the secret is never printed in full.
- **Diagnostics go to standard output.** Every error message of the extractor goes to standard output, because it is printed with `print`. The model's `credentialLines` holds only the `clientId=`/`clientSecret=` lines. On failure that list is empty.
- **A `'\n'` inside a value adds output lines.** The values are printed as they are. A `client_id` of `"a\nb"` with secret `"c"` prints `clientId=a\nb\nclientSecret=c\n`. A reader of the output that goes line by line then sees three lines, and the middle one, `b`, is neither `clientId=` nor `clientSecret=` (`NewlineInValueAddsOutputLine`).
- **`in` on non-objects.** A top-level list or string does not make `'installed' in data` raise. A list is searched for the string and a string for a substring. The result is still `None`, but the branch taken is the "no section" one or a later `TypeError` (`NonObjectDocumentFails`).

## Model

| member | source | states |
|---|---|---|
| `CredentialWriter.IdKey` | add_youtube_credentials.py:22 | the id key starts with the project name, followed by exactly `_YouTube_Client_ID` |
| `CredentialWriter.SecretKey` | add_youtube_credentials.py:23 | the secret key starts with the project name, followed by exactly `_YouTube_Client_Secret` |
| `CredentialWriter.Entry` | add_youtube_credentials.py:38-39 | an entry starts with `<key>=`, ends with `'\n'`, and is two characters longer than the key and the value together |
| `CredentialWriter.EntryValue` | add_youtube_credentials.py:38-39 | the value can be read back from an entry: it is the text between the `=` after the key and the terminator |
| `CredentialWriter.Upsert` | add_youtube_credentials.py:32-39 | the lines written back have at most two more lines than were read; the last two are the new id entry and then the new secret entry, and no line before them is an entry of the project |
| `CredentialWriter.ReadStore` | add_youtube_credentials.py:26-29 | the lines read are lines as `readlines` returns them, and joining them gives the store's text; a missing store gives the empty text |
| `CredentialWriter.WriteStore` | add_youtube_credentials.py:26-43 | the store after a run is present and ends with `'\n'`; its text is the text of the kept lines followed by the id entry and the secret entry |
| `CredentialWriter.KeysDerived` | add_youtube_credentials.py:22-23 | each key is the project name followed by `_YouTube_Client_ID` or `_YouTube_Client_Secret`; different projects get different keys, and no id key equals a secret key |
| `CredentialWriter.StartsWith` | add_youtube_credentials.py:32-33 | `str.startswith` holds exactly when the prefix is a prefix of the line, and then the prefix is no longer than the line |
| `CredentialWriter.IsStale` | add_youtube_credentials.py:31-34 | a line the filter drops starts with the project name and is longer than the id key |
| `CredentialWriter.KeyPrefixesDisjoint` | add_youtube_credentials.py:32-34 | no line starts with both `<id_key>=` and `<secret_key>=` |
| `CredentialWriter.EntriesAreStale` | add_youtube_credentials.py:32-39 | each appended entry starts with its own key and `=` and not with the other key's prefix, so a later run removes it |
| `CredentialWriter.RemoveStale` | add_youtube_credentials.py:32-35 | the filter never grows the list, and no kept line starts with either derived prefix |
| `CredentialWriter.RemoveStaleCounts` | add_youtube_credentials.py:32-35 | every kept line comes from the input; a line is kept exactly as often as it occurs if it is not stale, and never if it is |
| `CredentialWriter.RemoveStaleAppend` | add_youtube_credentials.py:32-35 | filtering a concatenation is the concatenation of the filtered parts (the filter preserves order) |
| `CredentialWriter.RemoveStaleKeepsUnrelated` | add_youtube_credentials.py:32-35 | input with no stale line passes the filter unchanged |
| `CredentialWriter.RemoveStaleIdempotent` | add_youtube_credentials.py:32-35 | filtering twice equals filtering once |
| `CredentialWriter.KeptLineAt` | add_youtube_credentials.py:32-35 | a kept input line i is in the result at the index equal to the number of kept lines before i |
| `CredentialWriter.KeptCountGrows` | add_youtube_credentials.py:32-35 | a kept line i makes the count of kept lines before any later index j strictly larger than before i |
| `CredentialWriter.KeptLinesInOrder` | add_youtube_credentials.py:32-35 | two kept input lines i < j are in the result at positions in the same order |
| `CredentialWriter.UpsertLayout` | add_youtube_credentials.py:32-39 | the result is the filtered input followed by `id_key=id\n` and then `secret_key=secret\n`; its length is the filtered length plus 2, at most the input length plus 2 |
| `CredentialWriter.UpsertKeepsUnrelated` | add_youtube_credentials.py:32-39 | every input line that starts with neither derived prefix is in the result, as often as in the input |
| `CredentialWriter.UpsertOnEmptyStore` | add_youtube_credentials.py:26-39 | a missing or empty store ends up exactly the two new entries |
| `CredentialWriter.UpsertSingleEntryPerKey` | add_youtube_credentials.py:32-39 | afterwards exactly one line starts with `<id_key>=` and exactly one with `<secret_key>=`, and they hold the values just supplied |
| `CredentialWriter.UpsertTwiceKeepsLatest` | add_youtube_credentials.py:32-39 | upserting (a, b) then (c, d) for one project equals upserting (c, d) once on the original lines |
| `CredentialWriter.UpsertIdempotent` | add_youtube_credentials.py:32-39 | repeating the same upsert leaves the lines unchanged |
| `CredentialWriter.EntryBelongsToOneProject` | add_youtube_credentials.py:22-35 | for project names without `=`, a line that is an entry of two projects is an entry of one project |
| `CredentialWriter.UpsertIsolatesProjects` | add_youtube_credentials.py:32-39 | for names without `=`, an upsert for project b keeps every entry of another project a, as often as before |
| `CredentialWriter.LongerNameIsStale` | add_youtube_credentials.py:32-35 | an entry of the project named `<id_key of P>=<rest>` starts with `<id_key of P>=`, so it counts as stale for project `P` |
| `CredentialWriter.StaleLineRemoved` | add_youtube_credentials.py:32-39 | a stale line is not among the lines written back, unless it equals one of the two new entries |
| `CredentialWriter.EqualsSignBreaksIsolation` | add_youtube_credentials.py:32-35 | the id entry of project `P_YouTube_Client_ID=Q` counts as stale for project `P`, and an upsert for `P` removes it |
| `CredentialWriter.SecretPreview` | add_youtube_credentials.py:47 | the preview is a prefix of the secret of length min(10, \|secret\|) |
| `CredentialWriter.PreviewShowsAtMostTen` | add_youtube_credentials.py:47 | the preview has at most 10 characters; it is the whole secret when the secret has at most 10 characters, and never the whole secret otherwise |
| `CredentialWriter.AddYouTubeCredentials` | add_youtube_credentials.py:18-47 | the store written is the concatenation of the upserted lines read from the old store, and the secret part of the message is the preview followed by `...` |
| `CredentialWriter.RunWriter` | add_youtube_credentials.py:50-60 | exit status 1 exactly when the argument count is not 4, and then the store is unchanged; otherwise status 0 and the store is written from `argv[1..3]` |
| `CredentialWriter.RereadWrittenStore` | add_youtube_credentials.py:26-43 | for a store that is missing or ends with `'\n'`, and arguments without `'\n'`, reading the written store gives exactly the upserted lines, and the text again ends with `'\n'` |
| `CredentialWriter.RerunKeepsLatest` | add_youtube_credentials.py:26-43 | on such a store, two runs for one project leave the same file as the second run alone |
| `CredentialWriter.NewlineInSecretAddsLine` | add_youtube_credentials.py:26-43 | with no store, a secret `head\nrest` is read back as the id entry, the secret entry holding `head`, and the line `rest\n`; a later run for the project keeps that line unless it is one of the project's entries |
| `CredentialWriter.NewlineInSecretDuplicatesIdKey` | add_youtube_credentials.py:26-43 | when that `rest` starts with `<id_key>=`, the store read back has three lines, and two of them start with `<id_key>=` |
| `CredentialWriter.NewlineInSecretExample` | add_youtube_credentials.py:26-43 | project `P`, id `a` and secret `x\nP_YouTube_Client_ID=y` give three lines on re-reading, two of them starting with `P_YouTube_Client_ID=` |
| `CredentialWriter.UnterminatedLastLineFuses` | add_youtube_credentials.py:29-43 | when the store's last line has no `'\n'` and is kept, reading the written store back fuses that line with the id entry, giving one line fewer than were written |
| `CredentialWriter.FusionAltersOtherProject` | add_youtube_credentials.py:29-43 | for names without `'\n'` that start with different characters, a store whose last line is project a's secret entry without `'\n'`, after a run for b, reads back as that line fused with b's id entry, then b's secret entry; the fused line still starts with a's secret key and no line starts with b's id key |
| `CredentialWriter.FusionExample` | add_youtube_credentials.py:29-43 | the store holding `<secret key of A>=s` (`A_YouTube_Client_Secret=s`) and a run for `B` with (`c`, `d`) read back as that text followed by B's id entry (`B_YouTube_Client_ID=c\n`), then B's secret entry, with no line starting with B's id key |
| `StoreText.Concat` | add_youtube_credentials.py:43 | `writelines` writes the lines one after the other with no separator, so the text starts with the first line; `ReadLines` and `ReadLinesOfConcat` tie it to `readlines` |
| `StoreText.ReadLines` | add_youtube_credentials.py:29 | joining the lines gives back the text; every line is non-empty, with `'\n'` at most at its end, and all but the last are terminated |
| `StoreText.ReadLinesTerminated` | add_youtube_credentials.py:29 | a text that is empty or ends with `'\n'` reads as lines that are all terminated |
| `StoreText.ReadLinesOfConcat` | add_youtube_credentials.py:29-43 | any line sequence that `readlines` can produce is read back unchanged after `writelines` |
| `StoreText.ConcatOfTerminated` | add_youtube_credentials.py:38-43 | terminated lines read back as themselves, and their text ends with `'\n'` |
| `CredentialExtractor.Truthy` | extract_credentials.py:27 | a value is falsy exactly when it is null, false, 0, `""`, `[]` or `{}` |
| `CredentialExtractor.IsSubstring` | extract_credentials.py:16-18 | `in` on two strings: a prefix of the string is found in it, and a string found is no longer than the one searched |
| `CredentialExtractor.Contains` | extract_credentials.py:16-18 | `in` succeeds on a dict, a list or a string and raises a TypeError otherwise; on a dict it tests for the key |
| `CredentialExtractor.Index` | extract_credentials.py:17-19 | `data[key]` succeeds exactly on a dict holding the key, giving its value; otherwise it raises |
| `CredentialExtractor.Get` | extract_credentials.py:24-25 | `.get` succeeds exactly on a dict; it agrees with indexing wherever indexing succeeds and gives None for a missing key |
| `CredentialExtractor.SelectSection` | extract_credentials.py:16-22 | the section found is the value under `installed` if present, else under `web`; on an object that has the chosen key it is always found, and an object without it fails in the no-section branch; other failures are raised exceptions |
| `CredentialExtractor.ReadFields` | extract_credentials.py:24-34 | the fields are read exactly when the section is an object with truthy `client_id` and `client_secret`, giving those values; a non-object section raises, and a missing or falsy field gives the missing-field branch |
| `CredentialExtractor.Lookup` | extract_credentials.py:9-44 | success needs a parsed object document; the not-found and invalid-JSON failures come exactly from those loading outcomes |
| `CredentialExtractor.ExtractCredentials` | extract_credentials.py:9-44 | the result is present exactly when the document is an object whose chosen section is an object with truthy `client_id` and `client_secret`; it then holds those two values unchanged |
| `CredentialExtractor.InstalledShadowsWeb` | extract_credentials.py:16-17 | with `installed` present, changing or adding `web` does not change the result |
| `CredentialExtractor.WebReadLikeInstalled` | extract_credentials.py:18-19 | without `installed`, the `web` section gives the same result as that section placed under `installed` |
| `CredentialExtractor.NoSectionFails` | extract_credentials.py:20-22 | an object with neither section ends in the no-section branch, with no result |
| `CredentialExtractor.NonObjectDocumentFails` | extract_credentials.py:16-44 | a top-level value that is not an object gives no result, through the no-section branch or the catch-all |
| `CredentialExtractor.NonObjectSectionFails` | extract_credentials.py:24-44 | a chosen section that is not an object makes `.get` raise; the catch-all leaves no result |
| `CredentialExtractor.FalsyFieldFails` | extract_credentials.py:24-29 | a missing or falsy `client_id` or `client_secret` ends in the missing-field branch, with no result |
| `CredentialExtractor.RunExtractor` | extract_credentials.py:46-60 | exit status 1 and no credential lines when the argument count is not 2; otherwise status 0 exactly when the loaded document is extractable, and then two `print` calls: `clientId` with the `client_id` value, then `clientSecret` with the `client_secret` value; on failure no credential lines |
| `CredentialExtractor.NatString` | extract_credentials.py:57-58 | the decimal text of a natural number is a well-formed numeral (digits only, no leading zero) whose value is that number |
| `CredentialExtractor.Display` | extract_credentials.py:57-58 | `str()` gives text exactly for the scalars: `None` for null, `True` or `False` for a boolean, a string as itself, a non-negative number as the numeral of its value, and a negative number as `-` followed by the numeral of its absolute value; lists and dicts are not rendered |
| `CredentialExtractor.Printed` | extract_credentials.py:57-58 | the printed text exists exactly when every value can be rendered, and it starts with the first line's `<name>=` |
| `CredentialExtractor.PrintedSingle` | extract_credentials.py:57-58 | one `print` of `<name>=<value>` writes the name, `=`, the value's `str()` and `'\n'`, and writes nothing when the value is not rendered |
| `CredentialExtractor.PrintedAppend` | extract_credentials.py:57-58 | printing two lists of lines one after the other writes the first text followed by the second |
| `CredentialExtractor.CredentialsPrinted` | extract_credentials.py:55-58 | for rendered values the printed text is `clientId=<str(id)>\nclientSecret=<str(secret)>\n` |
| `CredentialExtractor.NewlineInValueAddsOutputLine` | extract_credentials.py:55-58 | a string `client_id` of `head\nrest` exits 0 and its output reads as three lines: `clientId=head`, `rest` and `clientSecret=<secret>` |
| `CredentialExtractor.InstalledDocumentPrinted` | extract_credentials.py:16-58 | `{"installed": {"client_id": "X", "client_secret": "Y"}}` prints `clientId=X\nclientSecret=Y\n` and exits 0 |
| `CredentialExtractor.WebDocumentPrinted` | extract_credentials.py:18-58 | the same document under `web` prints the same text and exits 0 |

## Left out

- File I/O (`os.path.exists`, `open`, `readlines`, `writelines`, the fixed path `api_keys.txt`): the store and the loaded document are parameters and results. `readlines` is modelled on text with `'\n'` as the only line terminator. The universal-newline translation of text mode (`'\r'`, `'\r\n'`) is not modelled.
- JSON parsing (`json.load`) and opening the file: the outcomes are tags of `Loaded`. They are a missing file, invalid JSON, any other failure such as a directory, no permission or undecodable bytes (handled by the catch-all at `extract_credentials.py:42-44`), or the parsed document. Duplicate keys in a document and the insertion order of objects are decoder behaviour and are not modelled. Numbers are integers; floats are not modelled.
- Console messages (status lines, emoji, usage text, error texts) are not modelled. The exception is the secret preview, whose `...` suffix the method returns.
- `CredentialExtractor.Display`: Python's `str()` of a non-empty list or dict value is not rendered. A dict's text depends on insertion order, which a Dafny map does not keep. A list's text is built from the `repr` of its elements (the choice of quotes, escapes, nested dicts), which the model does not define. For such a value `Printed` gives no text, while the output-line structure of `RunExtractor` is still exact.
- The Writer's generic exception handler (`add_youtube_credentials.py:61-63`): I/O failures and partial writes are not modelled, so `RunWriter` never takes that path.
- The unlocked read-then-write race between concurrent runs, and the non-atomic overwrite of the store: concurrency and filesystem semantics are outside a sequential model.
