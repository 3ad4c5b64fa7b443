# Kryptos vault model

Kryptos is a local password manager with a desktop user interface. Each
account has a vault file, `<account>_kryptos_data.json`, kept in the
application directory `Kryptos` under the user's configuration root
(created owner-only, mode 0700, when it is missing). The file holds
a JSON envelope `{"salt", "entries"}`:
- `salt` is 16 random bytes, drawn anew on every save;
- `entries` is the base64 form of `nonce || AES-256-GCM(records)`;
- the key is scrypt of the master password with N = 16384, r = 8, p = 1,
  and is 32 bytes long;
- the records are a JSON array of password entries.

A plaintext registry, `kryptos_accounts.json`, lists the account names.
Export and import copy a vault file's bytes verbatim, with no decryption.
The user interface keeps a shared state:
- the account list;
- the current account and its master password;
- the shown records and the full set of loaded records.

Its handlers create and delete accounts, log in, search, add, edit and
delete records, and rate password strength. A separate generator makes
random passwords from a 94-character set.

The Dafny model has one module per component:
- `Base` holds bytes, errors and the UTF-8 length Go's `len` sees.
- `Text` models the `strings` functions used.
- `Seqs` provides order-keeping filter and map.
- `Entry` is the record.
- `Crypto` covers key derivation, salt and nonce drawing, and the
  encrypt/decrypt framing.
- `FileStore` is the file system as a `Disk` object.
- `Storage` is the file protocol.
- `Utils` is the password generator.
- `Ui` holds the list rules and the `App` class with the handlers.

The cryptographic primitives and the JSON codec are function-valued fields
(`Crypto.Primitives`, `Storage.Codec`). What the program relies on about
them is stated as predicates used as preconditions: decoding inverts
encoding, Open inverts Seal, and the lengths are as the standards give.
Randomness is the `Crypto.Entropy` object, the stream of bytes it will
deliver. The UUID and the clock readings of a new record are parameters.
Every state-changing method is proved equal to a function of the old
state, and the properties below are lemmas about those functions.

Three facts about the code shape the model:
- Export and import take the master password as a parameter and never
  read it.
- Tags are an ordered list: order and repetitions are kept.
- A save writes the vault file in place with one `os.WriteFile`; there is
  no temporary file and no rename.

## Model

| member | source | states |
|---|---|---|
| Base.Utf8Char | crypto/crypto.go:28 | one character encodes as one to four bytes; exactly one byte, its own code, for ASCII |
| Base.Utf8Encode | crypto/crypto.go:28 | `[]byte(s)` has between `len(s)` characters and four times that many bytes |
| Base.Utf8EncodeConcat | ui/ui.go:853-861 | the encoding of a concatenation is the concatenation of the encodings, so Go's `len` is additive |
| Base.AsciiEncoding | utils/utils.go:18-21 | for ASCII text the byte length equals the character count and each byte is the character code |
| Text.ToLower | ui/ui.go:671-676 | lower-casing keeps the length and maps each character separately |
| Text.Contains | ui/ui.go:674-676 | the empty term is contained in every text, and a contained term is no longer than the text |
| Text.ContainsIff | ui/ui.go:674-676 | `strings.Contains` holds exactly when some suffix of the text starts with the term |
| Text.Occurrences | ui/ui.go:765 | a text holds the separator at most as often as it has characters |
| Text.OccurrencesCounts | ui/ui.go:765 | the count is the separator's multiplicity in the text, and zero exactly when the text does not hold it |
| Text.Split | ui/ui.go:765 | splitting at a comma gives one piece more than there are commas, and no piece holds a comma |
| Text.JoinPrepend | ui/ui.go:765 | a character put before the first part is put before the joined text |
| Text.JoinSplit | ui/ui.go:765 | joining the pieces of a split with the separator gives back the original text |
| Text.TrimLeft | ui/ui.go:767 | the result is a suffix of the text that does not start with white space, and only white space was removed |
| Text.TrimRight | ui/ui.go:767 | the result is a prefix of the text that does not end with white space, and only white space was removed |
| Text.TrimSpace | ui/ui.go:767 | the result is no longer than the text and has no white space at either end |
| Text.TrimSpaceSlice | ui/ui.go:767 | the result is the slice of the text between a run of leading and a run of trailing white space |
| Text.TrimSpaceWithin | ui/ui.go:767 | trimming introduces no character that the text lacks |
| Text.TrimSpaceIdempotent | ui/ui.go:767 | trimming twice equals trimming once |
| Seqs.Filter | ui/ui.go:1208-1213 | the kept elements satisfy the test, and every element of the input that passes the test is kept |
| Seqs.FilterConcat | ui/ui.go:672-680 | filtering a concatenation is the concatenation of the filtered parts (the order is kept) |
| Seqs.FilterSnoc | ui/ui.go:672-680 | one more loop step appends the element exactly when it passes |
| Seqs.FilterKeepsAll | ui/ui.go:1208-1213 | when every element passes, filtering changes nothing |
| Seqs.FilterIdempotent | ui/ui.go:672-680 | filtering twice with the same test is filtering once |
| Seqs.FilterPartition | ui/ui.go:422-427 | every element goes to exactly one side of a test and its negation |
| Seqs.FilterDistinct | ui/ui.go:422-427 | filtering a list without repetitions gives a list without repetitions |
| Seqs.MapSeq | ui/ui.go:766-768 | mapping keeps positions: element i of the result is f of element i |
| Entry.NewEntryFields | entry/entry.go:23-35 | a new record carries every argument unchanged, with its own id and two clock readings; different ids give different records |
| Entry.JsonKeys | entry/entry.go:10-20 | id, title, username, password, createdAt and updatedAt are always written; url, notes and tags are written iff non-empty |
| Crypto.DeriveKeyFromPassword | crypto/crypto.go:27-33 | the key is scrypt of the UTF-8 password and salt with N=16384, r=8, p=1 and length 32; a successful key is 32 bytes |
| Crypto.Entropy.constructor | crypto/crypto.go:38 | the random source starts with the given stream |
| Crypto.Entropy.Read | crypto/crypto.go:38 | the buffer is filled with the next bytes, which are consumed; a stream that is too short fails and consumes nothing |
| Crypto.DrawSalt | crypto/crypto.go:36-43 | a salt is the next 16 bytes of the stream; a shorter stream gives a random-source failure and consumes nothing |
| Crypto.GenerateSalt | crypto/crypto.go:36-43 | the salt and the stream afterwards are those of DrawSalt |
| Crypto.EncryptDraw | crypto/crypto.go:46-61 | a wrong key size is rejected before any random bytes are drawn; otherwise the next 12 bytes are the nonce, and the result is base64 of `nonce \|\| Seal` |
| Crypto.EncryptData | crypto/crypto.go:46-61 | the result and the stream afterwards are those of EncryptDraw |
| Crypto.DecryptData | crypto/crypto.go:64-87 | bad base64 returns the decoder's error; success needs a valid key size, at least 12 bytes, and Open accepting the rest under the first 12 bytes |
| Crypto.DecryptRejectsBadBase64 | crypto/crypto.go:65-68 | invalid base64 fails whatever the key or the cipher |
| Crypto.DecryptRejectsShort | crypto/crypto.go:77-80 | input shorter than the nonce is "ciphertext too short", and Open is never consulted |
| Crypto.DecryptOpenFailure | crypto/crypto.go:81-86 | an authentication failure yields an error and no plaintext |
| Crypto.Frame | crypto/crypto.go:55-60 | decoding the text gives back the nonce followed by the sealed data |
| Crypto.FrameLayout | crypto/crypto.go:55-60 | the decoded output is the 12-byte nonce followed by the sealed data, which is a 16-byte tag longer than the plaintext |
| Crypto.EncryptDecryptRoundTrip | crypto/crypto.go:46-87 | decrypting what EncryptData produced, under the same key, returns the data |
| FileStore.ReadFile | storage/storage.go:43-49 | a read succeeds exactly for a present regular file and returns its bytes; a not-exist error is returned exactly when nothing is at the path |
| FileStore.Write | storage/storage.go:111 | a write replaces the whole content of that one path; permission bits are set only when the file is created |
| FileStore.Mkdir | storage/storage.go:28-32 | creating a directory adds that directory and changes no file; it fails on an existing file |
| FileStore.Disk.constructor | storage/storage.go:23-28 | the file system starts with the given files, directories, refusals and configuration root |
| FileStore.Disk.Read | storage/storage.go:43 | a read succeeds exactly for a present regular file the system does not refuse, and returns its bytes |
| FileStore.Disk.WriteFile | storage/storage.go:111 | the disk becomes the state Write gives, or stays as it was and returns the error |
| FileStore.Disk.MkdirAll | storage/storage.go:29-31 | the disk becomes the state Mkdir gives, or stays as it was and returns the error |
| Storage.PrepareAppDir | storage/storage.go:22-32 | a missing configuration root is returned as the error; success changes no file and adds at most the application directory |
| Storage.DirStep | storage/storage.go:26-32 | a failed directory step leaves the disk as it was; a successful one changes no file and adds at most the application directory |
| Storage.ResolvePath | storage/storage.go:22-34 | the path is `<config>/Kryptos/<name>` exactly when the directory step succeeds |
| Storage.DataPathInjective | storage/storage.go:33 | different account names get different vault files |
| Storage.SuffixCancel | storage/storage.go:33 | two names that agree after the same suffix is appended were equal |
| Storage.DataPathIsNotAccountsPath | storage/storage.go:13-14 | no account's vault file is the registry file |
| Storage.DataPathIsNotAppDir | storage/storage.go:27-33 | neither file is the application directory itself |
| Storage.OpenVault | storage/storage.go:51-71 | the first failure among envelope parse, key derivation, decryption and record parse is returned unchanged, each of the first three stated separately; success has passed all four |
| Storage.LoadFrom | storage/storage.go:43-49 | a missing file is an empty vault and no error; any other read error is returned unchanged |
| Storage.LoadResult | storage/storage.go:37-72 | the directory step's error, or the outcome of reading the account's own vault file |
| Storage.SealVault | storage/storage.go:81-109 | a stream shorter than a salt fails with nothing drawn; a success consumes exactly the 16 salt and 12 nonce bytes |
| Storage.SaveOutcome | storage/storage.go:75-112 | a failed directory step changes nothing; success holds exactly when the directory step, the sealing and the write succeed, and then the vault file holds the new envelope and no other file changes; a failure changes no file |
| Storage.ExportOutcome | storage/storage.go:115-127 | export succeeds exactly when the vault file can be read and the destination written; then the destination holds the vault's bytes and no other file changes; a read error is returned; a failure changes no file; no random bytes are drawn |
| Storage.ImportOutcome | storage/storage.go:130-142 | an unreadable source fails before the directory step; success holds exactly when the source can be read and the vault file written, and then the vault file holds the source's bytes and no other file changes; a failure changes no file |
| Storage.LoadAccountsResult | storage/storage.go:160-178 | no application directory, a read error other than not-exist, or a registry that does not parse give nil; a missing registry gives an empty list; otherwise the parsed names |
| Storage.SaveAccountsOutcome | storage/storage.go:181-193 | saving succeeds exactly when the directory step succeeds and the registry can be written; then the registry holds the marshalled names and no other file changes; a failure changes no file |
| Storage.PrepareAppDirOn | storage/storage.go:23-32 | returns the application directory or the error of PrepareAppDir, and the disk becomes DirStep of the old state |
| Storage.GetDataFilePath | storage/storage.go:22-34 | returns ResolvePath for the account's file name, and the disk becomes DirStep of the old state |
| Storage.GetAccountFilePath | storage/storage.go:145-157 | returns ResolvePath for the registry, and the disk becomes DirStep of the old state |
| Storage.LoadEncryptedData | storage/storage.go:37-72 | returns LoadResult of the old disk, and only the directory step changes the disk |
| Storage.SaveEncryptedData | storage/storage.go:75-112 | the error, the new disk and the remaining stream are SaveOutcome of the old ones |
| Storage.ExportEncryptedData | storage/storage.go:115-127 | the error and the new disk are ExportOutcome of the old disk |
| Storage.ImportEncryptedData | storage/storage.go:130-142 | the error and the new disk are ImportOutcome of the old disk |
| Storage.LoadAccounts | storage/storage.go:160-178 | returns LoadAccountsResult of the old disk, and only the directory step changes the disk |
| Storage.SaveAccounts | storage/storage.go:181-193 | the error and the new disk are SaveAccountsOutcome of the old disk |
| Storage.DirStepStable | storage/storage.go:28-32 | once the application directory exists, the directory step changes nothing |
| Storage.SealOpenRoundTrip | storage/storage.go:81-111 | an envelope a save seals opens again, under the same password, to the same records |
| Storage.SealVaultDrawsFreshSalt | storage/storage.go:86-104 | the envelope's salt is the next 16 bytes of the stream, and its ciphertext is the frame of the next 12 bytes |
| Storage.LoadMissingFileIsEmpty | storage/storage.go:43-47 | an account with no vault file loads as an empty vault and no error |
| Storage.SaveReplacesWholeFile | storage/storage.go:111 | after a save the account file holds only the new envelope, and no other file changes |
| Storage.SaveThenLoad | storage/storage.go:37-112 | loading with the password a save used returns exactly the saved records, and the load changes nothing on disk |
| Storage.LaterSaveSupersedes | storage/storage.go:86-111 | after two saves the file holds only the second snapshot, and that snapshot's salt was drawn after the first save's bytes |
| Storage.VaultSaveLeavesRegistry | storage/storage.go:111 | a vault save never touches the registry file |
| Storage.ExportCopiesBytes | storage/storage.go:115-127 | export copies the vault file's bytes unchanged to the destination, which is the only file that changes |
| Storage.ExportOfMissingFileFails | storage/storage.go:121-124 | exporting an account with no vault file is a not-exist error |
| Storage.ImportCopiesBytes | storage/storage.go:130-142 | import copies the source's bytes, unchecked, over the vault file, which is the only file that changes |
| Storage.ImportThenLoad | storage/storage.go:130-142 | after a successful import the account loads as the imported bytes open under the password |
| Storage.ExportImportPreservesVault | storage/storage.go:115-142 | export to a path followed by import from it makes the target account load, under any password, exactly as the source did |
| Storage.MissingRegistryIsEmpty | storage/storage.go:166-170 | a missing registry file gives an empty list |
| Storage.BadRegistryIsNil | storage/storage.go:173-176 | a registry that does not parse gives nil |
| Storage.AccountsRoundTrip | storage/storage.go:160-193 | saving the registry and loading it gives the same names in the same order |
| Storage.LoadIsRepeatable | storage/storage.go:37-72 | a second load gives the same result, and the directory step does nothing the second time |
| Storage.VaultSaveKeepsRegistryLoad | storage/storage.go:75-112 | a vault save leaves what LoadAccounts returns unchanged |
| Utils.CharsetFacts | utils/utils.go:8 | the charset has 94 characters, all of them ASCII |
| Utils.AsciiConcat | utils/utils.go:8 | two ASCII texts concatenate to ASCII text |
| Utils.Pick | utils/utils.go:19 | a byte b selects charset character b mod 94, which is ASCII |
| Utils.PickRepeatsEvery94 | utils/utils.go:19 | bytes 94 apart select the same character |
| Utils.PasswordFrom | utils/utils.go:18-20 | one charset character per random byte |
| Utils.Generated | utils/utils.go:12-21 | a failed read gives the empty string; otherwise one character per requested byte |
| Utils.GeneratedRest | utils/utils.go:13-16 | a successful generation consumes exactly the requested number of bytes, a failed one none |
| Utils.GeneratedPicksByIndex | utils/utils.go:18-20 | character i of a successful generation is the charset entry at random byte i mod 94 |
| Utils.GeneratedShape | utils/utils.go:12-21 | a successful generation has exactly the requested length, in characters and in bytes, and uses only the charset |
| Utils.PositionDependsOnItsByte | utils/utils.go:18-20 | character i depends on random byte i alone |
| Utils.ShortStreamGivesEmpty | utils/utils.go:14-16 | a failed read gives the empty string and consumes nothing |
| Utils.EveryCharsetCharReachable | utils/utils.go:8-19 | byte k < 94 selects charset character k, so every character can occur |
| Utils.GenerateRandomPassword | utils/utils.go:12-21 | the password and the remaining stream are Generated and GeneratedRest of the old stream |
| Ui.PasswordStrength | ui/ui.go:853-861 | weak iff the UTF-8 length is below 6, medium iff it is 6 to 9, strong iff it is 10 or more |
| Ui.StrengthNeverDrops | ui/ui.go:853-861 | appending characters never lowers the rating |
| Ui.StrengthCountsBytes | ui/ui.go:855-857 | the meter counts bytes: three two-byte letters rate medium |
| Ui.CheckNewAccount | ui/ui.go:369-390 | the checks run in order (empty name, byte length below 8, mismatch, duplicate), and the account is accepted iff all four pass |
| Ui.AddKeepsNamesDistinct | ui/ui.go:385-393 | appending a name the checks accept keeps the list free of repetitions |
| Ui.WithoutName | ui/ui.go:422-427 | the remaining names are other names of the old list, and every other name remains |
| Ui.DeleteAccountSpec | ui/ui.go:422-428 | deletion removes every occurrence of the name, keeps every other name, and keeps the list free of repetitions |
| Ui.AccountIsListed | ui/ui.go:385-390 | the duplicate loop finds the name iff it is in the list |
| Ui.CopyOtherNames | ui/ui.go:422-427 | the copy loop yields the list without the name |
| Ui.ParsedTags | ui/ui.go:765-768 | there is one tag more than there are commas in the field |
| Ui.TrimmedPieceShape | ui/ui.go:767 | a comma-free piece, once trimmed, has no comma and no white space at either end |
| Ui.ParsedTagsShape | ui/ui.go:765-768 | no tag holds a comma or starts or ends with white space |
| Ui.EmptyTagsFieldGivesOneTag | ui/ui.go:765-768 | an empty tags field gives one empty tag, not none |
| Ui.ParseTags | ui/ui.go:765-768 | the in-place trim loop yields ParsedTags of the field |
| Ui.EditedEntry | ui/ui.go:777-783 | an edit keeps the id, URL and creation time, replaces the edited fields, and sets the update time to now |
| Ui.EditedList | ui/ui.go:785-792 | an edit keeps the length and replaces exactly the records with the edited id |
| Ui.EditedListSpec | ui/ui.go:785-792 | an edit keeps the length, replaces every record with the edited id, and leaves the other records in place |
| Ui.FormList | ui/ui.go:776-797 | an edit keeps the length; an addition appends one new record with an empty URL after the unchanged list |
| Ui.ReplaceById | ui/ui.go:785-793 | the edit loop yields EditedList |
| Ui.WithoutEntry | ui/ui.go:1208-1213 | the remaining records have another id and come from the old list, and every record with another id remains |
| Ui.DeleteEntrySpec | ui/ui.go:1207-1213 | deletion keeps exactly the records with another id; deleting twice is deleting once; an absent id changes nothing |
| Ui.CopyOtherEntries | ui/ui.go:867-873 | the delete loop yields the list without the id |
| Ui.Matches | ui/ui.go:674-676 | the empty term matches every record, and a match needs a field at least as long as the term |
| Ui.SearchView | ui/ui.go:670-681 | the empty term shows every record; any term shows some of the records and none new |
| Ui.SearchViewSpec | ui/ui.go:670-680 | an empty term shows all records; any other term shows exactly the records whose title, username or notes contain it ignoring case, and searching again changes nothing |
| Ui.SearchEntries | ui/ui.go:671-680 | the filter loop yields the matching records in their order |
| Ui.BuildFormList | ui/ui.go:762-797 | the tag loop plus the edit loop or append yield FormList of the parsed tags |
| Ui.NotContainedWhenLonger | ui/ui.go:674-676 | a term longer than a field is not contained in it |
| Ui.MailSearchShowsOne | ui/ui.go:670-680 | searching records titled "mail" and "web" for "mail" shows only the first |
| Ui.SearchThenSaveDropsHiddenRecords | ui/ui.go:785-800 | after a search for "mail", an edit save or a deletion writes a list without the record the search hid |
| Ui.VaultEditsKeepOtherRecords | ui/ui.go:776-797 | an edit, addition or deletion applied to the full record list keeps every other record |
| Ui.App.constructor | ui/ui.go:47-66 | the state starts with the accounts LoadAccounts returns (nil as empty), no current account and no records |
| Ui.App.ConfirmAddAccount | ui/ui.go:369-403 | a rejected request changes nothing; an accepted name is appended before the registry is saved and stays when that save fails; after both saves the registry loads the new list and the new vault loads empty |
| Ui.App.ConfirmDeleteAccount | ui/ui.go:422-433 | the name is removed and the registry is saved, with its error ignored; the open account is closed only when it is the deleted one |
| Ui.App.ShowLoginScreen | ui/ui.go:203-207 | the chosen account becomes the current one and nothing else changes |
| Ui.App.BackToAccounts | ui/ui.go:617-620 | no account is current and no records are shown |
| Ui.App.ShowDashboard | ui/ui.go:440-456 | both lists become the loaded vault, and the closing refresh (ui/ui.go:654) reloads the same records; a failed load changes neither |
| Ui.App.SubmitLogin | ui/ui.go:228-251 | an empty password is refused untouched; a failed load changes nothing; success keeps the password and shows the loaded records |
| Ui.App.RefreshEntryList | ui/ui.go:658-686 | the full list becomes the loaded vault and the shown list its search view; a failed load changes neither |
| Ui.App.SaveEntryForm | ui/ui.go:759-808 | missing fields change nothing; otherwise the shown list becomes FormList and is saved; the full list becomes it only when the save succeeds |
| Ui.App.ShowAndSave | ui/ui.go:784-807 | the new list becomes the shown list and is saved; on success it becomes the full list too and the dashboard reloads it |
| Ui.App.DeleteEntry | ui/ui.go:1206-1228 | the list without the record is saved; the state changes only when the save succeeds |
| Ui.App.ExportToFile | ui/ui.go:905-925 | the disk becomes ExportOutcome of the old disk for the current account, and its error is reported |
| Ui.App.ImportFromFile | ui/ui.go:927-953 | a failed import reports its error and changes neither list; after a successful import both lists become the imported bytes opened under the current password, or stay as they were when that load fails |
| Ui.App.ConfirmDeleteEntry | ui/ui.go:863-882 | the shown list loses the record before the save; whatever the save gives, the list is then refreshed with an empty search |

## Left out

- The fyne widgets, windows, dialogs, toasts, layout and theme (ui/theme.go) are not modelled. A dialog that reports an error becomes a returned `UiError`, and a success message becomes `None`.
- The login goroutine runs synchronously in `Ui.App.SubmitLogin`, so races with other handlers are not modelled.
- The `recover()` panic handlers are not modelled.
- The file chooser of the export and import dialogs (ui/ui.go:905-953) is not modelled: `Ui.App.ExportToFile` and `Ui.App.ImportFromFile` start from the chosen path. A cancelled chooser does nothing, and the chooser's own writer or reader, opened and closed around the copy, is not modelled.
- reloadEntries (ui/ui.go:689-705) is never called and is not modelled; it repeats the load that `Ui.App.ShowDashboard` models.
- `Ui.App.ShowDashboard` ignores the error of its closing refresh; that second load sees the same records as the first (`Storage.LoadIsRepeatable`), so it cannot fail where the first succeeded.
- `Ui.App.ConfirmDeleteAccount`: the delete button of an account row makes that account current before the confirmation opens (ui/ui.go:151-154), so in the program the deleted account is always the current one and the branch that keeps another account open does not arise. The model takes the current account as given and keeps both branches.
- Paths are plain strings, joined with "/" and not cleaned by `filepath`. The store is flat: a file standing where a parent directory should be is not a not-dir error.
- MkdirAll's creation of missing parents is not modelled.
- `Storage.PrepareAppDir` treats a refused `os.Stat` like a missing directory, and then fails in Mkdir. Go instead skips the Mkdir and fails at the later read or write.
- Permission bits are recorded but not enforced.
- The internals of scrypt, AES, GCM, base64 and JSON are abstract. Their properties are assumed as the `Valid` predicates.
- Wrong-key and tamper detection are probabilistic properties of GCM that a functional model cannot state. Open is only assumed to invert Seal.
- `Text.ToLower` lower-cases only A to Z, not every Unicode letter.
- Time values are nanosecond integers. The precision JSON keeps for them is not modelled.
- `Utils.GenerateRandomPassword`: a negative length, which panics in Go, cannot arise because the length is a `nat`.
- The package variable `seededRand` is never used, so it is not modelled.
- math/rand's Read never fails in Go. The model keeps the failure branch.
- Go's nil and empty slices are both the empty sequence, except in `Storage.LoadAccountsResult`, where `None` is nil. Deleting the last account saves a nil list, which JSON writes as `null` and which loads back as nil, whereas `Storage.AccountsRoundTrip` gives the empty list; the user interface uses the loaded list (ui/ui.go:59) only through its length and its elements, where nil and empty agree, so nothing it shows differs.
- `Ui.App.SaveEntryForm` parses the tags after the empty-field check, whereas the handler parses them before it. Parsing has no effect, so nothing observable differs.
- The UUID and the two clock readings of a new record are parameters.

## Findings

| source | as written | input that shows it | evidently intended | confidence | as-written member | corrected member |
|---|---|---|---|---|---|---|
| ui/ui.go:785-800, ui/ui.go:1207-1215 | the save and delete handlers start from `state.Entries`, which after a search is the filtered view, and save that list as the whole vault | records "1" (title "mail") and "2" (title "web"), search "mail", then edit or delete record "1": record "2" is not in the saved list | apply the change to the full record list (`OriginalEntries`) so that the records the search hid are kept | not executed | Ui.SearchThenSaveDropsHiddenRecords | Ui.VaultEditsKeepOtherRecords |

The handlers of `Ui.App` model the code as written. The corrected rule is
`Ui.FormList` and `Ui.WithoutEntry` applied to the full record list, and
`Ui.VaultEditsKeepOtherRecords` proves that it keeps every other record.
