/**
 The migration runner: for each file of the sorted directory that is not recorded yet, one transaction
 that runs it and records it. Any statement may fail, which ends the run; the next run starts over.
 */
module Migrations {
  import opened Common

  type Name = string

  /** Where a run stops: before the first file, looking up file `index`, or applying it. */
  datatype Failure = Never | AtSetup | AtLookup(index: nat) | InApply(index: nat, during: During)

  datatype During = Nothing | ReadingFile | BeginTx | Script | Recording | Commit

  function Hits(failure: Failure, i: nat): During {
    if failure.InApply? && failure.index == i then failure.during else Nothing
  }

  /** Apply the files from `i` on. Everything before a commit is undone when the transaction fails. */
  function RunFrom(files: seq<Name>, i: nat, failure: Failure, committed: seq<Name>): (r: (seq<Name>, bool))
    requires i <= |files|
    decreases |files| - i
  {
    if i == |files| then (committed, true)
    else if failure == AtLookup(i) then (committed, false)
    else if files[i] in committed then RunFrom(files, i + 1, failure, committed)
    else if Hits(failure, i) != Nothing then (committed, false)
    else RunFrom(files, i + 1, failure, committed + [files[i]])
  }

  /** One run: what is committed after it, in order of commitment, and whether it reported success. */
  function RunOnce(files: seq<Name>, failure: Failure, committed: seq<Name>): (seq<Name>, bool) {
    if failure.AtSetup? then (committed, false) else RunFrom(files, 0, failure, committed)
  }

  class Runner {
    /** The scripts that have taken effect, in order. */
    var committed: seq<Name>
    /** The names recorded in schema_migrations. */
    var recorded: set<Name>

    constructor ()
      ensures committed == [] && recorded == {}
    {
      committed, recorded := [], {};
    }

    method Run(files: seq<Name>, failure: Failure) returns (ok: bool)
      requires recorded == Elements(committed)
      modifies this
      ensures recorded == Elements(committed)
      ensures (committed, ok) == RunOnce(files, failure, old(committed))
    {
      if failure.AtSetup? {
        return false;
      }
      for i := 0 to |files|
        invariant recorded == Elements(committed)
        invariant RunFrom(files, i, failure, committed) == RunFrom(files, 0, failure, old(committed))
      {
        var name := files[i];
        if failure == AtLookup(i) {
          return false;
        }
        if name in recorded {
          continue;
        }
        ok := Apply(name, Hits(failure, i));
        if !ok {
          return;
        }
      }
      ok := true;
    }

    /** Script and record in one transaction, on copies that only the commit installs. */
    method Apply(name: Name, failure: During) returns (ok: bool)
      requires name !in recorded && recorded == Elements(committed)
      modifies this
      ensures ok <==> failure == Nothing
      ensures recorded == Elements(committed)
      ensures committed == if ok then old(committed) + [name] else old(committed)
    {
      if failure == ReadingFile || failure == BeginTx {
        return false;
      }
      var txCommitted, txRecorded := committed, recorded;
      if failure == Script {
        return false;
      }
      txCommitted := txCommitted + [name];
      if failure == Recording {
        return false;
      }
      txRecorded := txRecorded + {name};
      if failure == Commit {
        return false;
      }
      committed, recorded := txCommitted, txRecorded;
      ok := true;
    }
  }

  // ---------------------------------------------------------------- one run, exactly

  /** The failure strikes a run that starts at file `i`: a lookup it makes, or a file it has to apply. */
  predicate Strikes(files: seq<Name>, i: nat, failure: Failure, committed: seq<Name>) requires i <= |files| {
    match failure
    case Never => false
    case AtSetup => false
    case AtLookup(k) => i <= k < |files|
    case InApply(k, during) =>
      during != Nothing && i <= k < |files| && files[k] !in committed && files[k] !in files[i..k]
  }

  /** The files a run gets past. */
  function Reached(files: seq<Name>, i: nat, failure: Failure, committed: seq<Name>): (r: nat)
    requires i <= |files|
    ensures r <= |files|
  {
    if Strikes(files, i, failure, committed) then failure.index else |files|
  }

  lemma RunFromNext(files: seq<Name>, i: nat, failure: Failure, committed: seq<Name>)
    requires i < |files|
    ensures files[i..] == [files[i]] + files[i + 1..]
    ensures forall k | i < k < |files| :: files[i..k] == [files[i]] + files[i + 1..k]
  {}

  lemma {:induction false} RunFromExactly(files: seq<Name>, i: nat, failure: Failure, committed: seq<Name>)
    requires i <= |files|
    ensures var (done, ok) := RunFrom(files, i, failure, committed);
      && (ok <==> failure.AtSetup? || !Strikes(files, i, failure, committed))
      && i <= Reached(files, i, failure, committed)
      && forall name :: name in done <==> name in committed || name in files[i..Reached(files, i, failure, committed)]
    decreases |files| - i
  {
    if i < |files| && failure != AtLookup(i) {
      RunFromNext(files, i, failure, committed);
      if files[i] in committed {
        RunFromExactly(files, i + 1, failure, committed);
      } else if Hits(failure, i) == Nothing {
        RunFromExactly(files, i + 1, failure, committed + [files[i]]);
      }
    }
  }

  /**
   One run, exactly: it fails if and only if its failure comes at the setup, at a lookup there is, or
   while a file is applied that was not applied before; and it has then committed every file before
   the one it was struck at, and without a failure every file there is, and nothing else.
   */
  lemma RunOnceExactly(files: seq<Name>, failure: Failure, committed: seq<Name>)
    ensures var (done, ok) := RunOnce(files, failure, committed);
      && (ok <==> !failure.AtSetup? && !Strikes(files, 0, failure, committed))
      && (failure.AtSetup? ==> done == committed)
      && (!failure.AtSetup? ==>
            forall name ::
              name in done <==> name in committed || name in files[..Reached(files, 0, failure, committed)])
  {
    RunFromExactly(files, 0, failure, committed);
  }

  // ---------------------------------------------------------------- runs over a fixed directory

  function RunAll(files: seq<Name>, failures: seq<Failure>): seq<Name> {
    if failures == [] then []
    else RunOnce(files, failures[|failures| - 1], RunAll(files, failures[..|failures| - 1])).0
  }

  lemma {:induction false} RunFromKeepsPrefix(files: seq<Name>, i: nat, failure: Failure, n: nat)
    requires Distinct(files) && i <= |files| && n <= |files|
    requires i <= n
    ensures var (done, ok) := RunFrom(files, i, failure, files[..n]);
      && done <= files && |done| >= n
      && (ok ==> done == files)
    decreases |files| - i
  {
    if i < |files| && failure != AtLookup(i) {
      if i < n {
        assert files[..n][i] == files[i];
        RunFromKeepsPrefix(files, i + 1, failure, n);
      } else {
        assert files[i] !in files[..n];
        if Hits(failure, i) == Nothing {
          assert files[..n] + [files[i]] == files[..n + 1];
          RunFromKeepsPrefix(files, i + 1, failure, n + 1);
        }
      }
    }
  }

  /**
   For a fixed directory, after any number of runs that failed anywhere or nowhere, the scripts that
   have taken effect are a prefix of the sorted list, each once and in order, none is ever lost, and a
   run that reports success has completed the list.
   */
  lemma {:induction false} MigrationsRunExactlyOnce(files: seq<Name>, failures: seq<Failure>)
    requires Distinct(files)
    ensures RunAll(files, failures) <= files
    ensures failures != [] ==>
      var before := RunAll(files, failures[..|failures| - 1]);
      var (after, ok) := RunOnce(files, failures[|failures| - 1], before);
      before <= after && (ok ==> after == files)
  {
    if failures != [] {
      var earlier := failures[..|failures| - 1];
      MigrationsRunExactlyOnce(files, earlier);
      var before := RunAll(files, earlier);
      assert before == files[..|before|];
      RunFromKeepsPrefix(files, 0, failures[|failures| - 1], |before|);
    }
  }

  /** However many runs have failed, and wherever, one that meets no failure ends with everything applied. */
  lemma UndisturbedRunCompletes(files: seq<Name>, failures: seq<Failure>)
    requires Distinct(files)
    ensures RunOnce(files, Never, RunAll(files, failures)) == (files, true)
  {
    var again := failures + [Never];
    assert again[..|failures|] == failures;
    MigrationsRunExactlyOnce(files, again);
    RunOnceExactly(files, Never, RunAll(files, failures));
  }

  // ---------------------------------------------------------------- directories that change

  /** Even when files come and go between runs, nothing is applied twice and success applies all there is. */
  lemma {:induction false} RunFromNeverRepeats(files: seq<Name>, i: nat, failure: Failure, committed: seq<Name>)
    requires Distinct(committed) && i <= |files|
    ensures var (done, ok) := RunFrom(files, i, failure, committed);
      && Distinct(done) && committed <= done
      && (forall name <- done :: name in committed || name in files[i..])
      && (ok ==> forall name <- files[i..] :: name in done)
    decreases |files| - i
  {
    if i < |files| && failure != AtLookup(i) {
      assert files[i..] == [files[i]] + files[i + 1..];
      if files[i] in committed {
        RunFromNeverRepeats(files, i + 1, failure, committed);
      } else if Hits(failure, i) == Nothing {
        assert files[i] in committed + [files[i]];
        RunFromNeverRepeats(files, i + 1, failure, committed + [files[i]]);
      }
    }
  }
}
