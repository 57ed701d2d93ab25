/**
 * `cleanOldFiles(dir, maxAge)` of the split handler: list the temporary
 * directory, and remove every entry whose last modification is more than
 * `maxAge` milliseconds before now. A failed removal is ignored; a failed
 * `stat` rejects the sweep, leaving the remaining entries unvisited.
 */
module TempSweep {

  /** The age limit the split handler passes: one hour in milliseconds. */
  const SplitMaxAge: int := 60 * 60 * 1000

  /** `now - mtime > maxAge`: strictly older than the limit. */
  predicate Stale(mtime: int, now: int, maxAge: int) {
    now - mtime > maxAge
  }

  /** The position of the first entry whose `stat` fails, or the listing's length. */
  function FirstStatFailure(listing: seq<string>, statFails: set<string>): (k: nat)
    ensures k <= |listing|
    ensures forall j :: 0 <= j < k ==> listing[j] !in statFails
    ensures k < |listing| ==> listing[k] in statFails
  {
    if listing == [] || listing[0] in statFails then 0 else 1 + FirstStatFailure(listing[1..], statFails)
  }

  /** The entries of `listing` a sweep removes, given the modification times in `files`. */
  function Removed(listing: seq<string>, files: map<string, int>, now: int, maxAge: int, unlinkFails: set<string>): set<string> {
    if listing == [] then {}
    else
      var name := listing[|listing| - 1];
      Removed(listing[..|listing| - 1], files, now, maxAge, unlinkFails)
      + (if name in files && Stale(files[name], now, maxAge) && name !in unlinkFails then {name} else {})
  }

  /** An entry is removed exactly when it was visited, is stale, and its removal did not fail. */
  lemma {:induction false} RemovedMembers(listing: seq<string>, files: map<string, int>, now: int, maxAge: int, unlinkFails: set<string>, name: string)
    ensures name in Removed(listing, files, now, maxAge, unlinkFails) <==>
              name in listing && name in files && Stale(files[name], now, maxAge) && name !in unlinkFails
  {
    if listing != [] {
      var front := listing[..|listing| - 1];
      RemovedMembers(front, files, now, maxAge, unlinkFails, name);
      assert listing == front + [listing[|listing| - 1]];
      assert name in listing <==> name in front || name == listing[|listing| - 1];
    }
  }

  /** With a one-hour limit, an entry exactly one hour old stays and one a millisecond older goes. */
  lemma OneHourBoundary(now: int)
    ensures !Stale(now - 3600000, now, SplitMaxAge)
    ensures Stale(now - 3600001, now, SplitMaxAge)
  {
  }

  /** The temporary directory: each entry's name and its modification time in milliseconds. */
  class TempDir {
    var files: map<string, int>

    constructor (initial: map<string, int>)
      ensures files == initial
    {
      files := initial;
    }

    /**
     * The sweep over `listing`, the directory's entries as `readdir` gave them
     * (each once). It visits them in order up to the first whose `stat`
     * fails, and reports whether that happened (the promise rejects).
     * Everything visited that is stale and whose removal did not fail is
     * gone; every other entry is kept with its time.
     */
    method CleanOldFiles(listing: seq<string>, now: int, maxAge: int, statFails: set<string>, unlinkFails: set<string>)
      returns (rejected: bool)
      requires forall name :: name in listing <==> name in files
      requires forall i, j :: 0 <= i < j < |listing| ==> listing[i] != listing[j]
      modifies this
      ensures rejected <==> exists i :: 0 <= i < |listing| && listing[i] in statFails
      ensures files == old(files) - Removed(listing[..FirstStatFailure(listing, statFails)], old(files), now, maxAge, unlinkFails)
    {
      ghost var original := files;
      var i := 0;
      while i < |listing|
        invariant 0 <= i <= |listing|
        invariant forall j :: 0 <= j < i ==> listing[j] !in statFails
        invariant files == original - Removed(listing[..i], original, now, maxAge, unlinkFails)
      {
        var name := listing[i];
        if name in statFails {
          assert FirstStatFailure(listing, statFails) == i;
          return true;
        }
        assert name !in Removed(listing[..i], original, now, maxAge, unlinkFails) by {
          RemovedMembers(listing[..i], original, now, maxAge, unlinkFails, name);
        }
        var mtime := files[name];
        assert listing[..i + 1][..i] == listing[..i];
        if now - mtime > maxAge && name !in unlinkFails {
          files := files - {name};
        }
        i := i + 1;
      }
      assert listing[..i] == listing;
      rejected := false;
    }
  }

  /**
   * When every `stat` succeeds and no removal fails, the sweep leaves exactly
   * the entries that are not stale.
   */
  lemma SweepKeepsExactlyFresh(files: map<string, int>, listing: seq<string>, now: int, maxAge: int)
    requires forall name :: name in listing <==> name in files
    ensures forall name :: name in files - Removed(listing, files, now, maxAge, {}) <==>
              name in files && !Stale(files[name], now, maxAge)
  {
    forall name
      ensures name in files - Removed(listing, files, now, maxAge, {}) <==> name in files && !Stale(files[name], now, maxAge)
    {
      RemovedMembers(listing, files, now, maxAge, {}, name);
    }
  }
}
