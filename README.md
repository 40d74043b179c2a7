# brig remote policy editing and gateway listing — a verified Dafny model

brig is a decentralised file-synchronisation tool. Each peer keeps a
versioned store and syncs with *remotes*. A remote is a registry entry:
a name, a fingerprint (`address:public-key-id`), two switches
(`AutoUpdate`, `AcceptPush`), a default conflict strategy, and a list of
per-folder policies. Each folder policy has a folder, a read-only flag and
a strategy.

This project models two pieces of deterministic logic found in brig's
adapters.

- **Remote and folder policy editing** (`cmd/net_handlers.go`), module
  `Remotes`. This covers:
  - the `brig remote add` folder specs (a leading `-` means read-only);
  - the `enable`/`disable` argument of `remote auto-update` and
    `remote accept-push`, and `remote conflict-strategy`;
  - looking up a remote by name;
  - `remote folder add` / `set` / `rm` / `clear`;
  - the computed cells of `remote list`: the shown strategy (`marker` when
    unset), the folder-count icon and the shortened fingerprint.

  The handlers read the registry from the daemon and send changed remotes
  back. Here the registry is a parameter (`seq<Remote>`). The folder
  handlers (`remote add`, `remote folder add`/`set`/`rm`/`clear`) store one
  remote: each returns the remote it would store, or the error it would
  report instead, in which case nothing is stored. `remote auto-update`,
  `remote accept-push` and `remote conflict-strategy` store one remote per
  named argument: each returns the updates it would issue, in order, and the
  error that stopped it. Updates issued before an unknown name stay stored.
- **The gateway `ls` endpoint** (`gateway/endpoints/ls.go`), module
  `Listing`. Each file-system stat record is converted to the external
  record, with the modification time in milliseconds at whole-second
  precision. The list is then sorted in place: directories first, each
  group by lower-cased path.

Module `Bytes` holds what both need. Go strings are byte strings, so they
are `seq<byte>`. The module also gives decimal rendering (`%d`) with its
parse, ASCII lower-casing, and Go's byte-wise string order with its
strict-total-order lemmas.

The handlers store whatever conflict-strategy string they are given and
never check it, so in the model a strategy is an arbitrary byte string and
the empty string means "unset".

## Model

| member | source | states |
|---|---|---|
| `Remotes.FirstMatch` | cmd/net_handlers.go:394-400 | The result is the index of the first element satisfying the test, or none when no element does. |
| `Remotes.FirstMatchAt` | cmd/net_handlers.go:394-400 | A match with no match before it is the first match, so the first match is unique. |
| `Remotes.Lookup` | cmd/net_handlers.go:394-400 | Gives the registry's first remote with exactly this name; gives none exactly when no remote has that name. |
| `Remotes.FindRemoteForName` | cmd/net_handlers.go:388-401 | The scan returns the first remote with the exact name (the one `Lookup` gives), or `NoSuchRemote(name)` exactly when no remote has that name. |
| `Remotes.ShownStrategy` | cmd/net_handlers.go:91-94 | The shown strategy is never empty: an empty strategy is shown as `marker`, a non-empty one unchanged. The same rule is at lines 185-188. |
| `Remotes.ShownStrategyIdempotent` | cmd/net_handlers.go:185-188 | Showing an already shown strategy changes nothing. |
| `Remotes.ParseToggle` | cmd/net_handlers.go:267-274 | Gives true exactly for `enable`/`e` and false exactly for `disable`/`d`; every other argument is `BadToggle`. |
| `Remotes.ParseFolderSpec` | cmd/net_handlers.go:245-254 | A spec is read-only exactly when it starts with `-`; then the name is the spec without that one `-`. Otherwise the name is the spec unchanged. The strategy is left unset. |
| `Remotes.ParseFolderSpecInverts` | cmd/net_handlers.go:245-249 | Parsing the spec of any policy that a spec can express gives that policy back. |
| `Remotes.FolderSpecInverts` | cmd/net_handlers.go:245-249 | Every spec is the spec of the policy it parses to. |
| `Remotes.FolderCountIcon` | cmd/net_handlers.go:49-55 | Zero folders show `*`. A positive count shows a string of digits without a leading zero whose decimal value is the count. |
| `Remotes.FolderCountIconInjective` | cmd/net_handlers.go:49-55 | Different folder counts never show the same icon. |
| `Bytes.Decimal` | cmd/net_handlers.go:54 | `%d` rendering is non-empty, all digits, and has no leading zero for a positive number. |
| `Bytes.DecimalRoundTrip` | cmd/net_handlers.go:54 | Reading a rendered number back gives the number. |
| `Bytes.DecimalInjective` | cmd/net_handlers.go:54 | Different numbers render differently. |
| `Remotes.SplitOnce` | cmd/net_handlers.go:165 | `SplitN(s, ":", 2)` gives one part (`s` itself) exactly when `s` has no colon. Otherwise it gives two parts that rejoin with `:` into `s`. The first part never holds a colon. |
| `Remotes.SplitOnceJoin` | cmd/net_handlers.go:165 | Splitting `a:b`, where `a` has no colon, gives back `[a, b]`. |
| `Remotes.Clip` | cmd/net_handlers.go:168-170 | Gives a prefix of at most n bytes. It is exactly n bytes when the input is longer, and the whole input otherwise. |
| `Remotes.ShortenFingerprint` | cmd/net_handlers.go:163-183 | The output has a colon exactly when the input does. Splitting the output gives the input's halves, each clipped to 12 bytes. The output is at most 25 bytes. A fingerprint whose halves are each at most 12 bytes comes back unchanged. |
| `Remotes.RemoteAdd` | cmd/net_handlers.go:235-262 | The stored remote has the given name, fingerprint, switches and strategy. It has one folder per `--folder` value, in argument order, each parsed by `ParseFolderSpec`. |
| `Remotes.UpdateRemotes` | cmd/net_handlers.go:276-292 | The updates are issued in argument order. Each update is the named remote with the setting applied. The loop stops at the first unknown name with `NoSuchRemote` for it; the updates issued before that stay stored. |
| `Remotes.RemoteToggle` | cmd/net_handlers.go:264-322 | A first argument other than `enable`/`e`/`disable`/`d` fails with `BadToggle` and nothing is stored. Otherwise each named remote is stored with `AutoUpdate` (or `AcceptPush`) set as parsed, until the first unknown name. |
| `Remotes.RemoteConflictStrategy` | cmd/net_handlers.go:324-338 | Each remote named after the first argument is stored with its strategy set to that argument, until the first unknown name. |
| `Remotes.Patched` | cmd/net_handlers.go:429-441 | `folder set` keeps the name. `--read-write` wins over `--read-only`, and the flag is kept when neither is given. The strategy changes only when `--conflict-strategy` is given. |
| `Remotes.PatchedIdempotent` | cmd/net_handlers.go:429-441 | Patching an entry twice with the same flags is patching it once. |
| `Remotes.Appended` | cmd/net_handlers.go:456-462 | `folder add` appends one entry per argument, in order, each with the `--read-only` value and the given strategy. |
| `Remotes.FindFolder` | cmd/net_handlers.go:427-446 | Finds a folder exactly when the list holds that name. It then gives the position of the first such entry. |
| `Remotes.RemoteFolderAddOrReplace` | cmd/net_handlers.go:411-466 | An unknown remote fails with `NoSuchRemote`. `add` succeeds exactly when no argument is already listed or repeats an earlier argument. On success the list is the old list followed by the new entries in argument order. Otherwise it fails with `FolderExists` for the first clashing argument. `set` succeeds exactly when every argument is listed. It then patches only the first entry of each named folder: the length, the names and all other entries stay the same. Otherwise it fails with `FolderMissing` for the first absent argument. The remote's other fields never change, and an error stores nothing. |
| `Remotes.AppendedHasFolder` | cmd/net_handlers.go:425-449 | During `add`, the list holds argument k exactly when k is already in the original list or repeats an earlier argument. |
| `Remotes.PatchedFirstsHasFolder` | cmd/net_handlers.go:427-446 | `set` never renames an entry, so the list holds the same names throughout. |
| `Remotes.PatchedFirstsStep` | cmd/net_handlers.go:427-446 | Patching the first entry of one more argument's name keeps the list equal to the list with the first entry of each argument's name patched. |
| `Remotes.FolderSetIdempotent` | cmd/net_handlers.go:427-454 | Running `folder set` a second time with the same folders and flags stores the same list. |
| `Remotes.WithoutMembers` | cmd/net_handlers.go:474-485 | After `folder rm` the list holds exactly the entries with other names. |
| `Remotes.WithoutAppend` | cmd/net_handlers.go:476-482 | Removal distributes over concatenation, so the kept entries keep their original order. |
| `Remotes.WithoutAbsent` | cmd/net_handlers.go:476-482 | Removing a name that is not listed leaves the list unchanged. |
| `Remotes.WithoutIdempotent` | cmd/net_handlers.go:468-486 | Removing a name twice is removing it once. |
| `Remotes.RemoveUndoesAdd` | cmd/net_handlers.go:456-485 | `folder rm` of a folder that `folder add` just appended restores the original list. |
| `Remotes.RemoteFolderRemove` | cmd/net_handlers.go:468-486 | An unknown remote fails with `NoSuchRemote`. Otherwise the stored remote is the found one with every entry of that folder name dropped; an absent name is not an error. |
| `Remotes.RemoteFolderClear` | cmd/net_handlers.go:488-496 | An unknown remote fails with `NoSuchRemote`. Otherwise the stored remote is the found one with an empty folder list and all else unchanged. |
| `Bytes.LowerByte` | gateway/endpoints/ls.go:90 | `A`-`Z` map to `a`-`z` and every other byte is unchanged. |
| `Bytes.Lower` | gateway/endpoints/ls.go:90 | Lower-casing keeps the length and lower-cases each byte. |
| `Bytes.LexLessIrreflexive` | gateway/endpoints/ls.go:90 | No string sorts before itself. |
| `Bytes.LexLessTransitive` | gateway/endpoints/ls.go:90 | Go's string `<` is transitive. |
| `Bytes.LexLessTotal` | gateway/endpoints/ls.go:90 | Any two different strings are ordered by `<` one way or the other. |
| `Bytes.LexLessAsymmetric` | gateway/endpoints/ls.go:90 | `a < b` excludes `b < a`. |
| `Listing.WrapInt64` | gateway/endpoints/ls.go:49 | The result is the 64-bit two's-complement value that is congruent to the product. It equals the product when the product fits. |
| `Listing.UnixMillisWholeSeconds` | gateway/endpoints/ls.go:49 | Without overflow, `ModTime` is Unix seconds × 1000, so it is a multiple of 1000. It is the modification instant rounded down to the whole second. |
| `Listing.UnixMillisWraps` | gateway/endpoints/ls.go:49 | For seconds beyond the int64 range of milliseconds, above or below, the product wraps around and is not seconds × 1000. |
| `Listing.ToExternal` | gateway/endpoints/ls.go:42-54 | Copies path, user, size, inode, depth, directory, pinned and explicit flags unchanged. The time becomes the int64 milliseconds of its whole seconds. |
| `Listing.ToExternalDropsSubSeconds` | gateway/endpoints/ls.go:49 | Records that differ only below the second convert identically. |
| `Listing.Converted` | gateway/endpoints/ls.go:79-82 | One converted record per listed item, in listing order. |
| `Listing.ListedBeforeAsymmetric` | gateway/endpoints/ls.go:85-91 | The sort comparator is asymmetric. |
| `Listing.NotBeforeTransitive` | gateway/endpoints/ls.go:85-91 | "Not after" under the comparator is transitive, so the comparator is a strict weak order and the sort is well defined. |
| `Listing.SortedListingShape` | gateway/endpoints/ls.go:84-91 | In a sorted listing every directory precedes every file. Within each group the lower-cased paths never decrease. |
| `Listing.InsertedSorted` | gateway/endpoints/ls.go:85-91 | An element no greater than what follows it and no less than what precedes it extends a sorted run. |
| `Listing.SortListing` | gateway/endpoints/ls.go:84-91 | The in-place sort leaves a permutation of its input in which no record comes after one the comparator puts after it. |
| `Listing.ServeListing` | gateway/endpoints/ls.go:73-96 | The response is a permutation of the converted items, one record per item. It is sorted: all directories before all files, each group by non-decreasing lower-cased path. No order is promised among equal keys. |

## Left out

- The daemon calls (`ctl.*`): the registry read becomes a parameter, and the update becomes the returned value. Errors of the daemon connection itself are not modelled.
- Printing, tabwriter layout, colour wrapping and `--format` templates. `FolderCountIcon` returns the text without its colour.
- `remoteListToYml`/`ymlToRemoteList` and `handleRemoteEdit`: a YAML library and an editor launch.
- The `ctl.Stat` existence warning in `folder add`/`set`: it only prints and never changes the outcome.
- `handleNetLocate` (a ticker goroutine and a result channel) and `handleRemotePing` (float formatting).
- `handleWhoami`, `handlePin`/`handleUnpin`/`handleRepin`, `handlePush`, `handleOnline`/`handleOffline`/`handleIsOnline`, `handleRemoteRemove`, `handleRemoteClear`: each only forwards to the daemon or prints.
- `handleRemoteFolderList` and `handleRemoteFolderListAll`: printing only.
- The initial sync that `remote auto-update` starts unless `--no-initial-sync` is given: a daemon call.
- `Remotes.RemoteToggle`: `RemoteByName` is implemented by the daemon. It is modelled by the same first-match lookup as `findRemoteForName`.
- `Remotes.RemoteConflictStrategy`: requires at least one argument, because the handler slices off the first argument unchecked and would panic without one.
- `Listing.SortListing`: Go's `sort.Slice` algorithm is not modelled. An insertion sort stands in for it, and only its result (sorted, and a permutation) is promised.
- `Bytes.Lower`: `strings.ToLower` folds Unicode. The model lower-cases ASCII `A`-`Z` only, so it agrees with Go on ASCII paths.
- `Listing.ToExternal`: a Go `time.Time` is reduced to its Unix seconds and nanoseconds. The monotonic clock reading and the location are not modelled. Depth (Go `int`) is taken as 64-bit.
- `Remotes.FolderCountIcon` takes a `nat`, because the count is a Go `len`, which is never negative.
- `LsHandler.ServeHTTP`'s request handling: decoding the JSON body (bad JSON gives 400), the authorization check for the root (401) and the `fs.List` call with its error (400). The model starts from the listed items.
- The commit graph, checkout, history, pinning and merge engine are not modelled.
