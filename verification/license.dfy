/** The license lock table (lib/src/license/mod.rs). The `license`
    configuration directory holds `common.lock`, which guards the
    bookkeeping, and one `<username>-<uuid>.lock` file per session holding
    a license. Each entry of the directory is modelled with whether it is
    a regular file and whether some open handle holds its exclusive lock;
    a non-blocking lock attempt through a new handle fails exactly when the
    lock is held, whoever holds it. Every operation starts and ends with
    `common.lock` free, since it is held only within one call. */
module License {
  import opened Text

  const COMMON_LOCK := "common.lock"

  datatype LockState = Free | Held

  /** One entry of the license directory, in `read_dir` order. */
  datatype LockEntry = LockEntry(name: string, isFile: bool, lock: LockState)

  predicate Named(entries: seq<LockEntry>, name: string)
  {
    exists i :: 0 <= i < |entries| && entries[i].name == name
  }

  /** Between operations nobody holds `common.lock`. */
  predicate CommonFree(entries: seq<LockEntry>)
  {
    forall i :: 0 <= i < |entries| && entries[i].name == COMMON_LOCK ==> entries[i].lock.Free?
  }

  /** `get_common_lock_file` (mod.rs:56-64): `common.lock` is created when
      missing. */
  function WithCommon(entries: seq<LockEntry>): (r: seq<LockEntry>)
    ensures Named(r, COMMON_LOCK)
    ensures Named(entries, COMMON_LOCK) ==> r == entries
    ensures !Named(entries, COMMON_LOCK) ==> r == entries + [LockEntry(COMMON_LOCK, true, Free)]
  {
    if Named(entries, COMMON_LOCK) then entries
    else
      var r := entries + [LockEntry(COMMON_LOCK, true, Free)];
      assert r[|entries|].name == COMMON_LOCK;
      r
  }

  /** The lock of every entry called `name` set to `state`. */
  function SetLock(entries: seq<LockEntry>, name: string, state: LockState): (r: seq<LockEntry>)
    ensures |r| == |entries|
    ensures forall i :: 0 <= i < |r| ==>
              r[i] == if entries[i].name == name then entries[i].(lock := state) else entries[i]
  {
    seq(|entries|, i requires 0 <= i < |entries| =>
      if entries[i].name == name then entries[i].(lock := state) else entries[i])
  }

  /** The name of a session's lock file (mod.rs:12). */
  function SessionLockName(username: string, uuid: string): (name: string)
  {
    username + "-" + uuid + ".lock"
  }

  /** A session's lock file starts with the user name, so the release scan
      of that user meets it. */
  lemma SessionLockMatches(username: string, uuid: string)
    ensures StartsWith(SessionLockName(username, uuid), username)
    ensures SessionLockName(username, uuid) != COMMON_LOCK
  {
    var name := SessionLockName(username, uuid);
    assert name[..|username|] == username;
    assert name[|username|] == '-';
  }

  /** The table after `lock_license` (mod.rs:8-19): the new session file,
      held, after `common.lock`, which is free again. */
  function AfterLock(entries: seq<LockEntry>, username: string, uuid: string): seq<LockEntry>
  {
    WithCommon(entries) + [LockEntry(SessionLockName(username, uuid), true, Held)]
  }

  /** The files the release scan of `username` looks at (mod.rs:31-37):
      regular files whose name starts with the user name, as a raw string
      prefix. */
  predicate Matches(e: LockEntry, username: string)
  {
    e.isFile && StartsWith(e.name, username)
  }

  /** The entries the scan keeps: everything but the matching files whose
      lock could be taken (mod.rs:38-43). */
  function Survivors(entries: seq<LockEntry>, username: string): (r: seq<LockEntry>)
    ensures |r| <= |entries|
    decreases |entries|
  {
    if entries == [] then []
    else
      var last := entries[|entries| - 1];
      var rest := Survivors(entries[..|entries| - 1], username);
      if Matches(last, username) && last.lock.Free? then rest else rest + [last]
  }

  /** Whether the scan meets a matching file some handle still holds
      (mod.rs:39-40). */
  predicate Contended(entries: seq<LockEntry>, username: string)
    decreases |entries|
  {
    && entries != []
    && var last := entries[|entries| - 1];
       Contended(entries[..|entries| - 1], username) || (Matches(last, username) && last.lock.Held?)
  }

  /** The scan reports contention exactly when some matching file is held. */
  lemma {:induction false} ContendedExact(entries: seq<LockEntry>, username: string)
    ensures Contended(entries, username)
            <==> exists i :: 0 <= i < |entries| && Matches(entries[i], username) && entries[i].lock.Held?
    decreases |entries|
  {
    if entries != [] {
      var init := entries[..|entries| - 1];
      ContendedExact(init, username);
      if exists i :: 0 <= i < |entries| && Matches(entries[i], username) && entries[i].lock.Held? {
        var i :| 0 <= i < |entries| && Matches(entries[i], username) && entries[i].lock.Held?;
        if i < |init| {
          assert init[i] == entries[i];
        }
      }
      if Contended(init, username) {
        var i :| 0 <= i < |init| && Matches(init[i], username) && init[i].lock.Held?;
        assert entries[i] == init[i];
      }
    }
  }

  /** The table the scan of `release_license` sees (mod.rs:22-25):
      `common.lock` held by the caller and the caller's own session file
      unlocked. */
  function Scanned(entries: seq<LockEntry>, handle: string): seq<LockEntry>
  {
    SetLock(SetLock(WithCommon(entries), COMMON_LOCK, Held), handle, Free)
  }

  /** `release_license(username, handle)` (mod.rs:21-48): whether the
      license can be returned, and the table afterwards. */
  function AfterRelease(entries: seq<LockEntry>, username: string, handle: string): (bool, seq<LockEntry>)
  {
    var scanned := Scanned(entries, handle);
    (!Contended(scanned, username), SetLock(Survivors(scanned, username), COMMON_LOCK, Free))
  }

  /** The scan removes exactly the matching files whose lock is free, and
      keeps everything else in order. */
  lemma {:induction false} SurvivorsExact(entries: seq<LockEntry>, username: string)
    ensures forall e :: e in Survivors(entries, username) <==> e in entries && !(Matches(e, username) && e.lock.Free?)
    decreases |entries|
  {
    if entries != [] {
      var init := entries[..|entries| - 1];
      SurvivorsExact(init, username);
      assert entries == init + [entries[|entries| - 1]];
    }
  }

  /** After a release no matching file is left free: each one left was
      held by another session (or is `common.lock` itself, which the scan
      held). Files that do not match are untouched. */
  lemma ReleaseEffect(entries: seq<LockEntry>, username: string, handle: string)
    ensures var scanned := Scanned(entries, handle);
            var after := AfterRelease(entries, username, handle).1;
            && (forall e :: e in after && e.name != COMMON_LOCK ==> e in scanned && !(Matches(e, username) && e.lock.Free?))
            && (forall e :: e in scanned && !Matches(e, username) && e.name != COMMON_LOCK ==> e in after)
  {
    var scanned := Scanned(entries, handle);
    var kept := Survivors(scanned, username);
    SurvivorsExact(scanned, username);
    var after := SetLock(kept, COMMON_LOCK, Free);
    forall e | e in after && e.name != COMMON_LOCK
      ensures e in kept
    {
      var i :| 0 <= i < |after| && after[i] == e;
      assert after[i] == kept[i];
    }
    forall e | e in kept && e.name != COMMON_LOCK
      ensures e in after
    {
      var i :| 0 <= i < |kept| && kept[i] == e;
      assert after[i] == kept[i];
    }
  }

  /** While another session of the same user holds its lock file, a
      release reports that the license cannot be returned. */
  lemma OtherSessionBlocks(entries: seq<LockEntry>, username: string, handle: string, i: nat)
    requires i < |entries| && Matches(entries[i], username) && entries[i].lock.Held?
    requires entries[i].name != handle
    ensures !AfterRelease(entries, username, handle).0
  {
    var scanned := Scanned(entries, handle);
    assert scanned[i].name == entries[i].name && scanned[i].lock == Held;
    ContendedExact(scanned, username);
  }

  /** The prefix test is a raw one: a user whose name is a prefix of
      another user's blocks on that user's sessions, and a user whose name
      is a prefix of `common.lock` (the empty name, say) can never return a
      license, because the scan meets the common lock it holds itself. */
  lemma RawPrefixMatches(entries: seq<LockEntry>, username: string, handle: string)
    requires StartsWith(COMMON_LOCK, username) && handle != COMMON_LOCK
    requires forall i :: 0 <= i < |entries| && entries[i].name == COMMON_LOCK ==> entries[i].isFile
    ensures !AfterRelease(entries, username, handle).0
  {
    var common := WithCommon(entries);
    var i :| 0 <= i < |common| && common[i].name == COMMON_LOCK;
    var scanned := Scanned(entries, handle);
    assert Matches(scanned[i], username) && scanned[i].lock.Held?;
    ContendedExact(scanned, username);
  }

  /** Distinct UUIDs give distinct session files. */
  lemma SessionNamesDistinct(username: string, u1: string, u2: string)
    requires u1 != u2
    ensures SessionLockName(username, u1) != SessionLockName(username, u2)
  {
    var a1, a2 := SessionLockName(username, u1), SessionLockName(username, u2);
    assert a1[|username| + 1..|a1| - 5] == u1;
    assert a2[|username| + 1..|a2| - 5] == u2;
  }

  /** Two sessions of one user, locked one after the other in a fresh
      directory, leave the common lock free and both session files held. */
  lemma TwoSessionsLocked(username: string, u1: string, u2: string)
    ensures AfterLock(AfterLock([], username, u1), username, u2)
            == [LockEntry(COMMON_LOCK, true, Free), LockEntry(SessionLockName(username, u1), true, Held),
                LockEntry(SessionLockName(username, u2), true, Held)]
  {
    var c := LockEntry(COMMON_LOCK, true, Free);
    SessionLockMatches(username, u1);
    var first := AfterLock([], username, u1);
    assert WithCommon([]) == [c];
    assert first == [c, LockEntry(SessionLockName(username, u1), true, Held)];
    assert first[0].name == COMMON_LOCK;
  }

  /** The release scan over the common lock (taken), a freed session
      file and another session's held file keeps the first and the last,
      and reports contention. */
  lemma ScanOfTwo(username: string, a1: string, a2: string)
    requires Matches(LockEntry(a1, true, Free), username) && Matches(LockEntry(a2, true, Held), username)
    requires COMMON_LOCK != a1 && COMMON_LOCK != a2 && a1 != a2
    ensures var s := [LockEntry(COMMON_LOCK, true, Held), LockEntry(a1, true, Free), LockEntry(a2, true, Held)];
            && Contended(s, username)
            && Survivors(s, username) == [s[0], s[2]]
  {
    var s := [LockEntry(COMMON_LOCK, true, Held), LockEntry(a1, true, Free), LockEntry(a2, true, Held)];
    assert s[..2][..1] == s[..1] && s[..1][..0] == [];
    assert Survivors(s[..1], username) == [s[0]];
    assert Survivors(s[..2], username) == [s[0]];
  }

  /** Two sessions of one user, locked one after the other in a fresh
      directory: releasing the first deletes its file and reports that the
      license is still in use. */
  lemma FirstOfTwoReleased(username: string, u1: string, u2: string)
    requires !StartsWith(COMMON_LOCK, username) && u1 != u2
    ensures var second := AfterLock(AfterLock([], username, u1), username, u2);
            AfterRelease(second, username, SessionLockName(username, u1))
              == (false, [LockEntry(COMMON_LOCK, true, Free), LockEntry(SessionLockName(username, u2), true, Held)])
  {
    var a1, a2 := SessionLockName(username, u1), SessionLockName(username, u2);
    var c := LockEntry(COMMON_LOCK, true, Free);
    SessionLockMatches(username, u1);
    SessionLockMatches(username, u2);
    SessionNamesDistinct(username, u1, u2);
    TwoSessionsLocked(username, u1, u2);
    var second := [c, LockEntry(a1, true, Held), LockEntry(a2, true, Held)];
    assert second[0].name == COMMON_LOCK;
    var held := SetLock(second, COMMON_LOCK, Held);
    assert held == [c.(lock := Held), LockEntry(a1, true, Held), LockEntry(a2, true, Held)];
    var s := SetLock(held, a1, Free);
    assert s == [c.(lock := Held), LockEntry(a1, true, Free), LockEntry(a2, true, Held)];
    ScanOfTwo(username, a1, a2);
    assert SetLock([s[0], s[2]], COMMON_LOCK, Free) == [c, s[2]];
  }

  /** Releasing the remaining session then reports the license free and
      leaves only the common lock. */
  lemma LastSessionReleased(username: string, u2: string)
    requires !StartsWith(COMMON_LOCK, username)
    ensures var after := [LockEntry(COMMON_LOCK, true, Free), LockEntry(SessionLockName(username, u2), true, Held)];
            AfterRelease(after, username, SessionLockName(username, u2)) == (true, [LockEntry(COMMON_LOCK, true, Free)])
  {
    var a2 := SessionLockName(username, u2);
    var c := LockEntry(COMMON_LOCK, true, Free);
    SessionLockMatches(username, u2);
    var after := [c, LockEntry(a2, true, Held)];
    assert after[0].name == COMMON_LOCK;
    var held := SetLock(after, COMMON_LOCK, Held);
    assert held == [c.(lock := Held), LockEntry(a2, true, Held)];
    var s := SetLock(held, a2, Free);
    assert s == [c.(lock := Held), LockEntry(a2, true, Free)];
    assert s[..1][..0] == [];
    assert !Contended(s[..1], username);
    assert Survivors(s[..1], username) == [s[0]];
    var kept := Survivors(s, username);
    assert kept == [s[0]];
    assert SetLock(kept, COMMON_LOCK, Free) == [c];
  }

  /** The license directory, as the two operations change it. */
  class LicenseDir {
    var entries: seq<LockEntry>

    constructor (entries: seq<LockEntry>)
      requires CommonFree(entries)
      ensures this.entries == entries && CommonFree(this.entries)
    {
      this.entries := entries;
    }

    /** `lock_license(username)` (mod.rs:8-19): under the common lock,
        create the session file `<username>-<uuid>.lock` and hold it;
        `uuid` stands for the random v4 UUID, taken to be new to the
        directory. Returns the session file's name, the handle. */
    method LockLicense(username: string, uuid: string) returns (handle: string)
      requires CommonFree(entries) && !Named(entries, SessionLockName(username, uuid))
      modifies this
      ensures CommonFree(entries)
      ensures handle == SessionLockName(username, uuid)
      ensures entries == AfterLock(old(entries), username, uuid)
    {
      entries := WithCommon(entries);
      entries := SetLock(entries, COMMON_LOCK, Held);
      handle := SessionLockName(username, uuid);
      entries := entries + [LockEntry(handle, true, Held)];
      entries := SetLock(entries, COMMON_LOCK, Free);
      SessionLockMatches(username, uuid);
      assert entries == AfterLock(old(entries), username, uuid);
    }

    /** `release_license(username, handle)` (mod.rs:21-48): under the
        common lock, unlock the caller's session file, then try each
        matching file: one still held by another session makes the result
        false, one that can be locked is stale and deleted. */
    method ReleaseLicense(username: string, handle: string) returns (canReturn: bool)
      modifies this
      ensures CommonFree(entries)
      ensures (canReturn, entries) == AfterRelease(old(entries), username, handle)
    {
      entries := WithCommon(entries);
      entries := SetLock(entries, COMMON_LOCK, Held);
      entries := SetLock(entries, handle, Free);
      var scanned := entries;
      var licenseLocked := false;
      var kept: seq<LockEntry> := [];
      for k := 0 to |scanned|
        invariant kept == Survivors(scanned[..k], username)
        invariant licenseLocked <==> Contended(scanned[..k], username)
      {
        assert scanned[..k + 1][..k] == scanned[..k];
        var e := scanned[k];
        if !e.isFile || !StartsWith(e.name, username) {
          kept := kept + [e];
          continue;
        }
        if e.lock.Held? {
          licenseLocked := true;
          kept := kept + [e];
        }
      }
      assert scanned[..|scanned|] == scanned;
      entries := SetLock(kept, COMMON_LOCK, Free);
      canReturn := !licenseLocked;
    }
  }
}
