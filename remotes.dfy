/** The remote registry as the `brig remote` and `brig remote folder`
    commands edit it (cmd/net_handlers.go). A remote is a peer with a name, a
    fingerprint, two policy switches, a default conflict strategy and a list
    of per-folder policies. The handlers read the registry and hand changed
    remotes back to the daemon; here the registry is a parameter. The folder
    handlers return the one remote they would store, or the error they would
    report instead; the handlers that take a list of remote names return the
    updates they would issue, in order, and the error that stopped them. */
module Remotes {
  import opened Bytes

  datatype Option<T> = None | Some(value: T)

  datatype Error =
    | NoSuchRemote(name: Bytes)    // "No such remote with this name"
    | FolderExists(folder: Bytes)  // "»folder« exists already"
    | FolderMissing(folder: Bytes) // "»folder« does not exist"
    | BadToggle                    // "please specify 'enable' or 'disable'"

  datatype Result<T> = Ok(value: T) | Err(error: Error)

  /** The policy for one folder shared with a remote. An empty strategy means
      "use the remote's default". */
  datatype RemoteFolder = RemoteFolder(folder: Bytes, readOnly: bool, conflictStrategy: Bytes)

  datatype Remote = Remote(
    name: Bytes,
    fingerprint: Bytes,
    autoUpdate: bool,
    acceptPush: bool,
    conflictStrategy: Bytes,
    folders: seq<RemoteFolder>)

  const Enable: Bytes := [101, 110, 97, 98, 108, 101]        // "enable"
  const EnableShort: Bytes := [101]                           // "e"
  const Disable: Bytes := [100, 105, 115, 97, 98, 108, 101]   // "disable"
  const DisableShort: Bytes := [100]                          // "d"
  const Marker: Bytes := [109, 97, 114, 107, 101, 114]        // "marker"
  const Star: Bytes := [42]                                   // "*"

  /** Longest prefix kept of each half of a fingerprint in the online listing. */
  const FingerprintHalf: nat := 12

  // ---------------------------------------------------------------------------
  // First match in a sequence

  /** The index of the first element satisfying p, if any. */
  function FirstMatch<T>(s: seq<T>, p: T -> bool): (r: Option<nat>)
    ensures r.Some? ==> r.value < |s| && p(s[r.value])
    ensures r.Some? ==> forall j :: 0 <= j < r.value ==> !p(s[j])
    ensures r.None? ==> forall j :: 0 <= j < |s| ==> !p(s[j])
  {
    if s == [] then None
    else if p(s[0]) then Some(0)
    else match FirstMatch(s[1..], p)
      case None => None
      case Some(i) => Some(i + 1)
  }

  /** A first match is unique: it is the only index that is a match with no
      match before it. */
  lemma {:induction false} FirstMatchAt<T>(s: seq<T>, p: T -> bool, k: nat)
    requires k < |s| && p(s[k])
    requires forall j :: 0 <= j < k ==> !p(s[j])
    ensures FirstMatch(s, p) == Some(k)
  {
    if k > 0 {
      assert !p(s[0]);
      FirstMatchAt(s[1..], p, k - 1);
    }
  }

  // ---------------------------------------------------------------------------
  // Registry lookup (findRemoteForName)

  /** The first remote in the registry carrying exactly this name. */
  function Lookup(remotes: seq<Remote>, name: Bytes): (r: Option<Remote>)
    ensures r.None? <==> forall j :: 0 <= j < |remotes| ==> remotes[j].name != name
    ensures r.Some? ==> exists k :: 0 <= k < |remotes| && remotes[k] == r.value && r.value.name == name
                                    && forall j :: 0 <= j < k ==> remotes[j].name != name
  {
    match FirstMatch(remotes, (x: Remote) => x.name == name)
    case None => None
    case Some(k) => Some(remotes[k])
  }

  /** Scans the registry for the first remote with exactly this name. */
  method FindRemoteForName(remotes: seq<Remote>, name: Bytes) returns (r: Result<Remote>)
    ensures r.Err? <==> forall j :: 0 <= j < |remotes| ==> remotes[j].name != name
    ensures r.Err? ==> r.error == NoSuchRemote(name)
    ensures r.Ok? ==> Lookup(remotes, name) == Some(r.value)
    ensures r.Ok? ==> exists k :: 0 <= k < |remotes| && remotes[k] == r.value && r.value.name == name
                                  && forall j :: 0 <= j < k ==> remotes[j].name != name
  {
    var i := 0;
    while i < |remotes|
      invariant 0 <= i <= |remotes|
      invariant forall j :: 0 <= j < i ==> remotes[j].name != name
    {
      if remotes[i].name == name {
        FirstMatchAt(remotes, (x: Remote) => x.name == name, i);
        return Ok(remotes[i]);
      }
      i := i + 1;
    }
    return Err(NoSuchRemote(name));
  }

  // ---------------------------------------------------------------------------
  // Small inputs

  /** The strategy shown for a remote: an unset (empty) strategy is shown as
      the default, `marker`. */
  function ShownStrategy(cs: Bytes): (shown: Bytes)
    ensures |shown| > 0
    ensures cs != [] ==> shown == cs
    ensures cs == [] ==> shown == Marker
  {
    if cs == [] then Marker else cs
  }

  /** Showing is idempotent: a shown strategy is shown unchanged. */
  lemma ShownStrategyIdempotent(cs: Bytes)
    ensures ShownStrategy(ShownStrategy(cs)) == ShownStrategy(cs)
  {
  }

  /** The first argument of `remote auto-update` and `remote accept-push`. */
  function ParseToggle(arg: Bytes): (r: Result<bool>)
    ensures r == Ok(true) <==> arg == Enable || arg == EnableShort
    ensures r == Ok(false) <==> arg == Disable || arg == DisableShort
    ensures r.Err? ==> r.error == BadToggle
  {
    if arg == Enable || arg == EnableShort then Ok(true)
    else if arg == Disable || arg == DisableShort then Ok(false)
    else Err(BadToggle)
  }

  /** A `--folder` value of `remote add`: one leading `-` marks the folder
      read-only and is not part of its name. */
  function ParseFolderSpec(spec: Bytes): (f: RemoteFolder)
    ensures f.readOnly <==> |spec| > 0 && spec[0] == Dash
    ensures f.readOnly ==> [Dash] + f.folder == spec
    ensures !f.readOnly ==> f.folder == spec
    ensures f.conflictStrategy == []
  {
    if |spec| > 0 && spec[0] == Dash then RemoteFolder(spec[1..], true, [])
    else RemoteFolder(spec, false, [])
  }

  /** The `--folder` value that denotes a folder policy. */
  function FolderSpec(f: RemoteFolder): Bytes {
    if f.readOnly then [Dash] + f.folder else f.folder
  }

  /** Parsing inverts FolderSpec, for every policy a `--folder` value can
      express: no strategy, and a writable folder whose name does not itself
      start with `-`. */
  lemma ParseFolderSpecInverts(f: RemoteFolder)
    requires f.conflictStrategy == []
    requires !f.readOnly ==> f.folder == [] || f.folder[0] != Dash
    ensures ParseFolderSpec(FolderSpec(f)) == f
  {
    if f.readOnly {
      assert ([Dash] + f.folder)[1..] == f.folder;
    }
  }

  /** FolderSpec inverts parsing: every `--folder` value is the spec of the
      policy it parses to. */
  lemma FolderSpecInverts(spec: Bytes)
    ensures FolderSpec(ParseFolderSpec(spec)) == spec
  {
  }

  /** The number of folders as the listing shows it: `*` (all folders) for
      none, the decimal count otherwise. */
  function FolderCountIcon(n: nat): (icon: Bytes)
    ensures |icon| > 0
    ensures n == 0 ==> icon == Star
    ensures n > 0 ==> (forall i :: 0 <= i < |icon| ==> IsDigit(icon[i])) && icon[0] != 48
    ensures n > 0 ==> DecimalValue(icon) == n
  {
    if n == 0 then Star
    else
      DecimalRoundTrip(n);
      Decimal(n)
  }

  /** Different folder counts never show the same icon. */
  lemma FolderCountIconInjective(m: nat, n: nat)
    requires m != n
    ensures FolderCountIcon(m) != FolderCountIcon(n)
  {
    if m > 0 && n > 0 {
      DecimalInjective(m, n);
    } else if m == 0 {
      assert !IsDigit(FolderCountIcon(m)[0]);
    } else {
      assert !IsDigit(FolderCountIcon(n)[0]);
    }
  }

  // ---------------------------------------------------------------------------
  // Fingerprint shortening (online listing)

  predicate IsColon(b: byte) {
    b == Colon
  }

  /** strings.SplitN(s, ":", 2): the text before the first colon and, when
      there is a colon, everything after it. */
  function SplitOnce(s: Bytes): (parts: seq<Bytes>)
    ensures |parts| == 1 || |parts| == 2
    ensures Colon !in parts[0]
    ensures |parts| == 1 <==> Colon !in s
    ensures |parts| == 1 ==> parts[0] == s
    ensures |parts| == 2 ==> parts[0] + [Colon] + parts[1] == s
  {
    match FirstMatch(s, IsColon)
    case None => [s]
    case Some(k) =>
      assert s[..k] + [Colon] + s[k + 1..] == s;
      [s[..k], s[k + 1..]]
  }

  /** Splitting a joined pair gives the pair back. */
  lemma SplitOnceJoin(a: Bytes, b: Bytes)
    requires Colon !in a
    ensures SplitOnce(a + [Colon] + b) == [a, b]
  {
    var s := a + [Colon] + b;
    FirstMatchAt(s, IsColon, |a|);
    assert s[..|a|] == a && s[|a| + 1..] == b;
  }

  function Clip(s: Bytes, n: nat): (r: Bytes)
    ensures |r| <= n && |r| <= |s|
    ensures r == s[..|r|]
    ensures |s| <= n ==> r == s
    ensures |s| > n ==> |r| == n
  {
    if |s| > n then s[..n] else s
  }

  /** The fingerprint column of `remote list`: the address part and the key
      part of an `addr:key` fingerprint are each clipped to 12 bytes. */
  method ShortenFingerprint(fp: Bytes) returns (shortFp: Bytes)
    ensures Colon in shortFp <==> Colon in fp
    ensures |SplitOnce(shortFp)| == |SplitOnce(fp)|
    ensures forall i :: 0 <= i < |SplitOnce(fp)| ==>
              SplitOnce(shortFp)[i] == Clip(SplitOnce(fp)[i], FingerprintHalf)
    ensures |shortFp| <= 2 * FingerprintHalf + 1
    ensures (forall i :: 0 <= i < |SplitOnce(fp)| ==> |SplitOnce(fp)[i]| <= FingerprintHalf) ==> shortFp == fp
  {
    shortFp := [];
    var splitFp := SplitOnce(fp);
    if |splitFp| > 0 {
      var shortAddr := splitFp[0];
      if |shortAddr| > FingerprintHalf {
        shortAddr := shortAddr[..FingerprintHalf];
      }
      shortFp := shortFp + shortAddr;
    }
    if |splitFp| > 1 {
      var shortPubKeyID := splitFp[1];
      if |shortPubKeyID| > FingerprintHalf {
        shortPubKeyID := shortPubKeyID[..FingerprintHalf];
      }
      shortFp := shortFp + [Colon];
      shortFp := shortFp + shortPubKeyID;
    }
    var first := Clip(splitFp[0], FingerprintHalf);
    assert first == splitFp[0][..|first|];
    assert Colon !in first;
    if |splitFp| == 2 {
      var second := Clip(splitFp[1], FingerprintHalf);
      assert shortFp == first + [Colon] + second;
      SplitOnceJoin(first, second);
    } else {
      assert shortFp == first;
      assert SplitOnce(shortFp) == [first];
    }
  }

  // ---------------------------------------------------------------------------
  // `remote add`

  /** The remote `remote add NAME FINGERPRINT` stores: the flags as given and
      one folder per `--folder` value, in argument order. */
  method RemoteAdd(
    name: Bytes, fingerprint: Bytes, autoUpdate: bool, conflictStrategy: Bytes,
    acceptPush: bool, folderSpecs: seq<Bytes>)
    returns (remote: Remote)
    ensures remote.name == name && remote.fingerprint == fingerprint
    ensures remote.autoUpdate == autoUpdate && remote.acceptPush == acceptPush
    ensures remote.conflictStrategy == conflictStrategy
    ensures |remote.folders| == |folderSpecs|
    ensures forall i :: 0 <= i < |folderSpecs| ==> remote.folders[i] == ParseFolderSpec(folderSpecs[i])
  {
    remote := Remote(name, fingerprint, autoUpdate, acceptPush, conflictStrategy, []);
    for k := 0 to |folderSpecs|
      invariant remote.name == name && remote.fingerprint == fingerprint
      invariant remote.autoUpdate == autoUpdate && remote.acceptPush == acceptPush
      invariant remote.conflictStrategy == conflictStrategy
      invariant |remote.folders| == k
      invariant forall i :: 0 <= i < k ==> remote.folders[i] == ParseFolderSpec(folderSpecs[i])
    {
      var folder := folderSpecs[k];
      var isReadOnly := false;
      if |folder| > 0 && folder[0] == Dash {
        isReadOnly := true;
        folder := folder[1..];
      }
      remote := remote.(folders := remote.folders + [RemoteFolder(folder, isReadOnly, [])]);
    }
  }

  // ---------------------------------------------------------------------------
  // `remote auto-update`, `remote accept-push`, `remote conflict-strategy`

  /** What one of these commands changes on every remote it names. */
  datatype Setting = AutoUpdate(on: bool) | AcceptPush(on: bool) | Strategy(cs: Bytes)

  function Apply(r: Remote, s: Setting): Remote {
    match s
    case AutoUpdate(on) => r.(autoUpdate := on)
    case AcceptPush(on) => r.(acceptPush := on)
    case Strategy(cs) => r.(conflictStrategy := cs)
  }

  /** The updates issued, in order, for a list of remote names: each remote
      is read, changed and stored before the next name is looked at, so an
      unknown name stops the loop with the earlier updates already stored.
      (Re-reading a remote stored earlier in the same loop yields the value
      it would get from the original registry with the setting applied, and
      applying the setting again leaves it unchanged, so the registry is not
      threaded through.) */
  method UpdateRemotes(remotes: seq<Remote>, names: seq<Bytes>, setting: Setting)
    returns (updates: seq<Remote>, err: Option<Error>)
    ensures |updates| <= |names|
    ensures forall i :: 0 <= i < |updates| ==>
              Lookup(remotes, names[i]).Some? && updates[i] == Apply(Lookup(remotes, names[i]).value, setting)
    ensures err.None? <==> |updates| == |names|
    ensures err.Some? ==> Lookup(remotes, names[|updates|]).None?
                          && err.value == NoSuchRemote(names[|updates|])
  {
    updates := [];
    for k := 0 to |names|
      invariant |updates| == k
      invariant forall i :: 0 <= i < k ==>
                  Lookup(remotes, names[i]).Some? && updates[i] == Apply(Lookup(remotes, names[i]).value, setting)
    {
      var rmt := FindRemoteForName(remotes, names[k]);
      if rmt.Err? {
        return updates, Some(rmt.error);
      }
      updates := updates + [Apply(rmt.value, setting)];
    }
    err := None;
  }

  /** The argument list without its first element, or nothing when empty. */
  function Rest(args: seq<Bytes>): seq<Bytes> {
    if args == [] then [] else args[1..]
  }

  /** `remote auto-update enable|disable NAME...` (and `accept-push` when
      `autoUpdate` is false): an unknown first argument is reported before
      any remote is read or stored; the initial sync `auto-update` may start
      is not part of this model. */
  method RemoteToggle(remotes: seq<Remote>, args: seq<Bytes>, autoUpdate: bool)
    returns (updates: seq<Remote>, err: Option<Error>)
    ensures var toggle := ParseToggle(if args == [] then [] else args[0]);
            toggle.Err? ==> updates == [] && err == Some(BadToggle)
    ensures var toggle := ParseToggle(if args == [] then [] else args[0]);
            toggle.Ok? ==>
              var setting := if autoUpdate then AutoUpdate(toggle.value) else AcceptPush(toggle.value);
              && |updates| <= |Rest(args)|
              && (forall i :: 0 <= i < |updates| ==>
                    Lookup(remotes, Rest(args)[i]).Some?
                    && updates[i] == Apply(Lookup(remotes, Rest(args)[i]).value, setting))
              && (err.None? <==> |updates| == |Rest(args)|)
              && (err.Some? ==> Lookup(remotes, Rest(args)[|updates|]).None?
                                && err.value == NoSuchRemote(Rest(args)[|updates|]))
  {
    var first := if args == [] then [] else args[0];
    var toggle := ParseToggle(first);
    if toggle.Err? {
      return [], Some(BadToggle);
    }
    var setting := if autoUpdate then AutoUpdate(toggle.value) else AcceptPush(toggle.value);
    updates, err := UpdateRemotes(remotes, Rest(args), setting);
  }

  /** `remote conflict-strategy STRATEGY NAME...`. The handler slices off
      the first argument without checking that there is one, so it needs at
      least one argument. */
  method RemoteConflictStrategy(remotes: seq<Remote>, args: seq<Bytes>)
    returns (updates: seq<Remote>, err: Option<Error>)
    requires |args| > 0
    ensures |updates| < |args|
    ensures forall i :: 0 <= i < |updates| ==>
              Lookup(remotes, args[i + 1]).Some?
              && updates[i] == Lookup(remotes, args[i + 1]).value.(conflictStrategy := args[0])
    ensures err.None? <==> |updates| == |args| - 1
    ensures err.Some? ==> Lookup(remotes, args[|updates| + 1]).None?
                          && err.value == NoSuchRemote(args[|updates| + 1])
  {
    updates, err := UpdateRemotes(remotes, args[1..], Strategy(args[0]));
  }

  // ---------------------------------------------------------------------------
  // `remote folder add` and `remote folder set`

  /** The command-line flags of `remote folder add|set`. */
  datatype FolderFlags = FolderFlags(
    readOnly: bool,      // value of --read-only
    readOnlySet: bool,   // whether --read-only was given
    readWriteSet: bool,  // whether --read-write was given
    strategySet: bool,   // whether --conflict-strategy was given
    strategy: Bytes)     // value of --conflict-strategy ("" when absent)

  predicate HasFolder(folders: seq<RemoteFolder>, name: Bytes) {
    exists i :: 0 <= i < |folders| && folders[i].folder == name
  }

  /** Whether entry j is the first entry carrying its name. */
  predicate FirstOfName(folders: seq<RemoteFolder>, j: nat)
    requires j < |folders|
  {
    forall i :: 0 <= i < j ==> folders[i].folder != folders[j].folder
  }

  /** The entry `remote folder add` appends. */
  function NewFolder(name: Bytes, flags: FolderFlags): RemoteFolder {
    RemoteFolder(name, flags.readOnly, flags.strategy)
  }

  /** An existing entry as `remote folder set` leaves it: --read-only then
      --read-write are applied, so --read-write wins; the strategy changes only
      when given; the name never changes. */
  function Patched(f: RemoteFolder, flags: FolderFlags): (g: RemoteFolder)
    ensures g.folder == f.folder
    ensures g.readOnly == (if flags.readWriteSet then false else if flags.readOnlySet then true else f.readOnly)
    ensures g.conflictStrategy == (if flags.strategySet then flags.strategy else f.conflictStrategy)
  {
    var ro := if flags.readOnlySet then f.(readOnly := true) else f;
    var rw := if flags.readWriteSet then ro.(readOnly := false) else ro;
    if flags.strategySet then rw.(conflictStrategy := flags.strategy) else rw
  }

  /** Setting the same flags twice is setting them once. */
  lemma PatchedIdempotent(f: RemoteFolder, flags: FolderFlags)
    ensures Patched(Patched(f, flags), flags) == Patched(f, flags)
  {
  }

  /** Whether argument i of `remote folder add` is refused: its name is already
      in the list, or was appended earlier in the same call. */
  predicate AddClash(folders: seq<RemoteFolder>, args: seq<Bytes>, i: nat)
    requires i < |args|
  {
    HasFolder(folders, args[i]) || args[i] in args[..i]
  }

  /** The entries `remote folder add` appends for its arguments. */
  function Appended(args: seq<Bytes>, flags: FolderFlags): (added: seq<RemoteFolder>)
    ensures |added| == |args|
    ensures forall i :: 0 <= i < |args| ==> added[i] == NewFolder(args[i], flags)
  {
    seq(|args|, i requires 0 <= i < |args| => NewFolder(args[i], flags))
  }

  /** The folder list after `remote folder set` has patched the first entry of
      each name in `args`. */
  predicate PatchedFirsts(old_: seq<RemoteFolder>, new_: seq<RemoteFolder>, args: seq<Bytes>, flags: FolderFlags) {
    && |new_| == |old_|
    && forall j :: 0 <= j < |old_| ==>
         new_[j] == if FirstOfName(old_, j) && old_[j].folder in args then Patched(old_[j], flags) else old_[j]
  }

  /** The inner scan: the position of the first entry with this name. */
  method FindFolder(folders: seq<RemoteFolder>, name: Bytes) returns (found: bool, idx: nat)
    ensures found <==> HasFolder(folders, name)
    ensures found ==> idx < |folders| && folders[idx].folder == name
    ensures found ==> forall i :: 0 <= i < idx ==> folders[i].folder != name
  {
    idx := 0;
    while idx < |folders|
      invariant idx <= |folders|
      invariant forall i :: 0 <= i < idx ==> folders[i].folder != name
    {
      if folders[idx].folder == name {
        return true, idx;
      }
      idx := idx + 1;
    }
    return false, 0;
  }

  /** `remote folder add` (replace false) and `remote folder set` (replace
      true) for remote `name` and folders `args`: the remote to store, or the
      first error met, in which case nothing is stored. */
  method RemoteFolderAddOrReplace(
    remotes: seq<Remote>, name: Bytes, args: seq<Bytes>, replace: bool, flags: FolderFlags)
    returns (r: Result<Remote>)
    ensures Lookup(remotes, name).None? ==> r == Err(NoSuchRemote(name))
    ensures Lookup(remotes, name).Some? && !replace ==>
              var remote := Lookup(remotes, name).value;
              && (r.Ok? <==> forall i :: 0 <= i < |args| ==> !AddClash(remote.folders, args, i))
              && (r.Ok? ==> r.value == remote.(folders := remote.folders + Appended(args, flags)))
              && (r.Err? ==> exists i :: 0 <= i < |args| && AddClash(remote.folders, args, i)
                                         && (forall j :: 0 <= j < i ==> !AddClash(remote.folders, args, j))
                                         && r.error == FolderExists(args[i]))
    ensures Lookup(remotes, name).Some? && replace ==>
              var remote := Lookup(remotes, name).value;
              && (r.Ok? <==> forall i :: 0 <= i < |args| ==> HasFolder(remote.folders, args[i]))
              && (r.Ok? ==> r.value == remote.(folders := r.value.folders)
                            && PatchedFirsts(remote.folders, r.value.folders, args, flags))
              && (r.Err? ==> exists i :: 0 <= i < |args| && !HasFolder(remote.folders, args[i])
                                         && (forall j :: 0 <= j < i ==> HasFolder(remote.folders, args[j]))
                                         && r.error == FolderMissing(args[i]))
  {
    var found := FindRemoteForName(remotes, name);
    if found.Err? {
      return found;
    }
    var remote := found.value;
    ghost var original := remote;
    for k := 0 to |args|
      invariant remote == original.(folders := remote.folders)
      invariant !replace ==> forall i :: 0 <= i < k ==> !AddClash(original.folders, args, i)
      invariant !replace ==> remote.folders == original.folders + Appended(args[..k], flags)
      invariant replace ==> forall i :: 0 <= i < k ==> HasFolder(original.folders, args[i])
      invariant replace ==> PatchedFirsts(original.folders, remote.folders, args[..k], flags)
    {
      var folder := args[k];
      var folderFound, idx := FindFolder(remote.folders, folder);
      if !replace {
        AppendedHasFolder(original.folders, args, k, flags);
      } else {
        PatchedFirstsHasFolder(original.folders, remote.folders, args[..k], flags, folder);
      }
      if folderFound && replace {
        var patched := remote.folders[idx];
        if flags.readOnlySet {
          patched := patched.(readOnly := true);
        }
        if flags.readWriteSet {
          patched := patched.(readOnly := false);
        }
        if flags.strategySet {
          patched := patched.(conflictStrategy := flags.strategy);
        }
        PatchedFirstsStep(original.folders, remote.folders, args, k, flags, idx);
        remote := remote.(folders := remote.folders[idx := patched]);
      }
      if !replace && folderFound {
        return Err(FolderExists(folder));
      }
      if replace && !folderFound {
        return Err(FolderMissing(folder));
      }
      if !replace {
        assert args[..k + 1] == args[..k] + [folder];
        remote := remote.(folders := remote.folders + [NewFolder(folder, flags)]);
      }
    }
    assert args[..|args|] == args;
    return Ok(remote);
  }

  /** During `remote folder add`, the list holds argument k's name exactly when
      it clashes. */
  lemma AppendedHasFolder(folders: seq<RemoteFolder>, args: seq<Bytes>, k: nat, flags: FolderFlags)
    requires k < |args|
    ensures HasFolder(folders + Appended(args[..k], flags), args[k]) <==> AddClash(folders, args, k)
  {
    var all := folders + Appended(args[..k], flags);
    if HasFolder(all, args[k]) {
      var i :| 0 <= i < |all| && all[i].folder == args[k];
      if i >= |folders| {
        assert args[..k][i - |folders|] == args[k];
      }
    }
    if args[k] in args[..k] {
      var i :| 0 <= i < k && args[..k][i] == args[k];
      assert all[|folders| + i].folder == args[k];
    }
    if HasFolder(folders, args[k]) {
      var i :| 0 <= i < |folders| && folders[i].folder == args[k];
      assert all[i].folder == args[k];
    }
  }

  /** During `remote folder set` names never change, so the current list holds
      a name exactly when the original one does. */
  lemma PatchedFirstsHasFolder(
    orig: seq<RemoteFolder>, cur: seq<RemoteFolder>, args: seq<Bytes>, flags: FolderFlags, name: Bytes)
    requires PatchedFirsts(orig, cur, args, flags)
    ensures HasFolder(cur, name) <==> HasFolder(orig, name)
    ensures forall j :: 0 <= j < |cur| ==> cur[j].folder == orig[j].folder
  {
    forall j | 0 <= j < |cur|
      ensures cur[j].folder == orig[j].folder
    {
    }
    if HasFolder(cur, name) {
      var i :| 0 <= i < |cur| && cur[i].folder == name;
      assert orig[i].folder == name;
    }
    if HasFolder(orig, name) {
      var i :| 0 <= i < |orig| && orig[i].folder == name;
      assert cur[i].folder == name;
    }
  }

  /** Patching the first entry named args[k] extends PatchedFirsts by one
      argument. */
  lemma PatchedFirstsStep(
    orig: seq<RemoteFolder>, cur: seq<RemoteFolder>, args: seq<Bytes>, k: nat, flags: FolderFlags, idx: nat)
    requires k < |args|
    requires PatchedFirsts(orig, cur, args[..k], flags)
    requires idx < |cur| && cur[idx].folder == args[k]
    requires forall i :: 0 <= i < idx ==> cur[i].folder != args[k]
    ensures PatchedFirsts(orig, cur[idx := Patched(cur[idx], flags)], args[..k + 1], flags)
  {
    PatchedFirstsHasFolder(orig, cur, args[..k], flags, args[k]);
    assert args[..k + 1] == args[..k] + [args[k]];
    var next := cur[idx := Patched(cur[idx], flags)];
    assert FirstOfName(orig, idx);
    forall j | 0 <= j < |orig|
      ensures next[j] == if FirstOfName(orig, j) && orig[j].folder in args[..k + 1]
                         then Patched(orig[j], flags) else orig[j]
    {
      if j == idx {
        PatchedIdempotent(orig[j], flags);
      } else {
        assert cur[j].folder == orig[j].folder;
        assert j < idx ==> cur[j].folder != args[k];
        assert idx < j && FirstOfName(orig, j) ==> orig[idx].folder != orig[j].folder;
      }
    }
  }

  /** Running `remote folder set` twice with the same folders and flags stores
      what the first run stored. */
  lemma FolderSetIdempotent(
    orig: seq<RemoteFolder>, once: seq<RemoteFolder>, twice: seq<RemoteFolder>, args: seq<Bytes>, flags: FolderFlags)
    requires PatchedFirsts(orig, once, args, flags)
    requires PatchedFirsts(once, twice, args, flags)
    ensures twice == once
  {
    PatchedFirstsHasFolder(orig, once, args, flags, []);
    forall j | 0 <= j < |once|
      ensures twice[j] == once[j]
    {
      assert FirstOfName(once, j) <==> FirstOfName(orig, j);
      PatchedIdempotent(orig[j], flags);
    }
  }

  // ---------------------------------------------------------------------------
  // `remote folder rm` and `remote folder clear`

  /** The folder list with every entry of this name dropped. */
  function Without(folders: seq<RemoteFolder>, name: Bytes): seq<RemoteFolder> {
    if folders == [] then []
    else
      var last := folders[|folders| - 1];
      Without(folders[..|folders| - 1], name) + (if last.folder == name then [] else [last])
  }

  /** Without keeps exactly the entries of other names. */
  lemma {:induction false} WithoutMembers(folders: seq<RemoteFolder>, name: Bytes)
    ensures forall f :: f in Without(folders, name) <==> f in folders && f.folder != name
  {
    if folders != [] {
      var init := folders[..|folders| - 1];
      WithoutMembers(init, name);
      assert folders == init + [folders[|folders| - 1]];
    }
  }

  /** Without distributes over concatenation, so the kept entries stay in
      their original order. */
  lemma {:induction false} WithoutAppend(a: seq<RemoteFolder>, b: seq<RemoteFolder>, name: Bytes)
    ensures Without(a + b, name) == Without(a, name) + Without(b, name)
  {
    if b != [] {
      var init := b[..|b| - 1];
      WithoutAppend(a, init, name);
      assert (a + b)[..|a + b| - 1] == a + init;
    } else {
      assert a + b == a;
    }
  }

  /** Removing a name that is not in the list changes nothing. */
  lemma {:induction false} WithoutAbsent(folders: seq<RemoteFolder>, name: Bytes)
    requires !HasFolder(folders, name)
    ensures Without(folders, name) == folders
  {
    if folders != [] {
      var init := folders[..|folders| - 1];
      forall i | 0 <= i < |init|
        ensures init[i].folder != name
      {
        assert init[i] == folders[i];
      }
      WithoutAbsent(init, name);
      assert folders[|folders| - 1].folder != name;
      assert folders == init + [folders[|folders| - 1]];
    }
  }

  /** Removing twice is removing once. */
  lemma WithoutIdempotent(folders: seq<RemoteFolder>, name: Bytes)
    ensures Without(Without(folders, name), name) == Without(folders, name)
  {
    var once := Without(folders, name);
    WithoutMembers(folders, name);
    forall i | 0 <= i < |once|
      ensures once[i].folder != name
    {
      assert once[i] in once;
    }
    WithoutAbsent(once, name);
  }

  /** `folder add` of one new name followed by `folder rm` of that name gives
      back the original list. */
  lemma RemoveUndoesAdd(folders: seq<RemoteFolder>, name: Bytes, flags: FolderFlags)
    requires !HasFolder(folders, name)
    ensures Without(folders + Appended([name], flags), name) == folders
  {
    WithoutAppend(folders, Appended([name], flags), name);
    WithoutAbsent(folders, name);
    assert Appended([name], flags) == [NewFolder(name, flags)];
    assert Without([NewFolder(name, flags)], name) == [];
  }

  /** `remote folder rm NAME FOLDER`: every entry named FOLDER is dropped; an
      absent folder is not an error. */
  method RemoteFolderRemove(remotes: seq<Remote>, name: Bytes, folderName: Bytes)
    returns (r: Result<Remote>)
    ensures Lookup(remotes, name).None? ==> r == Err(NoSuchRemote(name))
    ensures Lookup(remotes, name).Some? ==>
              var remote := Lookup(remotes, name).value;
              r == Ok(remote.(folders := Without(remote.folders, folderName)))
  {
    var found := FindRemoteForName(remotes, name);
    if found.Err? {
      return found;
    }
    var remote := found.value;
    var newFolders := [];
    for k := 0 to |remote.folders|
      invariant newFolders == Without(remote.folders[..k], folderName)
    {
      var folder := remote.folders[k];
      assert remote.folders[..k + 1][..k] == remote.folders[..k];
      if folder.folder == folderName {
        continue;
      }
      newFolders := newFolders + [folder];
    }
    assert remote.folders[..|remote.folders|] == remote.folders;
    return Ok(remote.(folders := newFolders));
  }

  /** `remote folder clear NAME`: the remote keeps everything but its folders. */
  method RemoteFolderClear(remotes: seq<Remote>, name: Bytes) returns (r: Result<Remote>)
    ensures Lookup(remotes, name).None? ==> r == Err(NoSuchRemote(name))
    ensures Lookup(remotes, name).Some? ==> r == Ok(Lookup(remotes, name).value.(folders := []))
  {
    var found := FindRemoteForName(remotes, name);
    if found.Err? {
      return found;
    }
    var remote := found.value;
    return Ok(remote.(folders := []));
  }
}
