/**
 * The read-only guard around the filesystem store.
 *
 * `Dir` wraps the store that the WebDAV engine uses. Its three mutating
 * operations, create-directory, remove-recursive and rename, fail with a
 * permission error and leave the store alone unless modification is enabled;
 * when it is, they are exactly the store's own operations. The store is
 * abstract: a state `S` and three operations on it.
 */
module ReadOnlyDir {
  import opened Wrappers

  /** The errors a store operation reports. */
  datatype FsError = ErrPermission | StoreError(reason: string)

  /** The store after an operation, and the error it reported, if any. */
  datatype FsResult<S> = FsResult(store: S, err: Option<FsError>)

  /** The underlying store's mutating operations (the request context is not modelled). */
  datatype Store<!S> = Store(
    mkdir: (S, string, nat) -> FsResult<S>,
    removeAll: (S, string) -> FsResult<S>,
    rename: (S, string, string) -> FsResult<S>)

  /** The guarded store; `modifiable` is the gateway's write-enable flag. */
  datatype Dir<!S> = Dir(base: Store<S>, modifiable: bool)

  function Mkdir<S>(d: Dir<S>, s: S, name: string, perm: nat): (r: FsResult<S>)
    ensures !d.modifiable ==> r.err == Some(ErrPermission) && r.store == s
    ensures d.modifiable ==> r == d.base.mkdir(s, name, perm)
  {
    if !d.modifiable then FsResult(s, Some(ErrPermission))
    else d.base.mkdir(s, name, perm)
  }

  function RemoveAll<S>(d: Dir<S>, s: S, name: string): (r: FsResult<S>)
    ensures !d.modifiable ==> r.err == Some(ErrPermission) && r.store == s
    ensures d.modifiable ==> r == d.base.removeAll(s, name)
  {
    if !d.modifiable then FsResult(s, Some(ErrPermission))
    else d.base.removeAll(s, name)
  }

  function Rename<S>(d: Dir<S>, s: S, oldName: string, newName: string): (r: FsResult<S>)
    ensures !d.modifiable ==> r.err == Some(ErrPermission) && r.store == s
    ensures d.modifiable ==> r == d.base.rename(s, oldName, newName)
  {
    if !d.modifiable then FsResult(s, Some(ErrPermission))
    else d.base.rename(s, oldName, newName)
  }

  /** A mutating request the WebDAV engine makes of the store. */
  datatype Mutation =
    | MkdirOp(name: string, perm: nat)
    | RemoveAllOp(name: string)
    | RenameOp(oldName: string, newName: string)

  /** One mutation through the guard. */
  function Apply<S>(d: Dir<S>, s: S, m: Mutation): FsResult<S>
  {
    match m
    case MkdirOp(name, perm) => Mkdir(d, s, name, perm)
    case RemoveAllOp(name) => RemoveAll(d, s, name)
    case RenameOp(oldName, newName) => Rename(d, s, oldName, newName)
  }

  /** One mutation straight on the store, without the guard. */
  function ApplyStore<S>(base: Store<S>, s: S, m: Mutation): FsResult<S>
  {
    match m
    case MkdirOp(name, perm) => base.mkdir(s, name, perm)
    case RemoveAllOp(name) => base.removeAll(s, name)
    case RenameOp(oldName, newName) => base.rename(s, oldName, newName)
  }

  /** The final store and the error of each mutation, for mutations made in order through the guard. */
  function Run<S>(d: Dir<S>, s: S, ms: seq<Mutation>): (S, seq<Option<FsError>>)
    decreases |ms|
  {
    if ms == [] then (s, [])
    else
      var r := Apply(d, s, ms[0]);
      var rest := Run(d, r.store, ms[1..]);
      (rest.0, [r.err] + rest.1)
  }

  /** The same, straight on the store. */
  function RunStore<S>(base: Store<S>, s: S, ms: seq<Mutation>): (S, seq<Option<FsError>>)
    decreases |ms|
  {
    if ms == [] then (s, [])
    else
      var r := ApplyStore(base, s, ms[0]);
      var rest := RunStore(base, r.store, ms[1..]);
      (rest.0, [r.err] + rest.1)
  }

  /**
   * Read-only enforcement: whatever mutations are attempted through a read-only
   * guard, each one fails with a permission error and the store is left exactly
   * as it was.
   */
  lemma {:induction false} ReadOnlyChangesNothing<S>(d: Dir<S>, s: S, ms: seq<Mutation>)
    requires !d.modifiable
    decreases |ms|
    ensures Run(d, s, ms).0 == s
    ensures |Run(d, s, ms).1| == |ms|
    ensures forall i :: 0 <= i < |ms| ==> Run(d, s, ms).1[i] == Some(ErrPermission)
  {
    if ms != [] {
      ReadOnlyChangesNothing(d, s, ms[1..]);
    }
  }

  /** With modification enabled the guard is invisible: every result is the store's own. */
  lemma {:induction false} WritableIsTransparent<S>(d: Dir<S>, s: S, ms: seq<Mutation>)
    requires d.modifiable
    decreases |ms|
    ensures Run(d, s, ms) == RunStore(d.base, s, ms)
  {
    if ms != [] {
      assert Apply(d, s, ms[0]) == ApplyStore(d.base, s, ms[0]);
      WritableIsTransparent(d, Apply(d, s, ms[0]).store, ms[1..]);
    }
  }
}
