/** The batch driver (lines 244-293): every input file is processed in
    turn; a file that succeeds has its path and a newline appended to the
    session's success log (lines 281-282), a file whose processing raises
    has its path appended to `error_paths` (lines 285-287), and the loop
    goes on with the next file either way. Whatever happens inside one item
    is abstracted into its outcome. */
module Session {
  import opened Outcomes
  import Paths

  /** Line 245: the paths the loop visits, each name joined under the input folder. */
  function InputPaths(folder: string, names: seq<string>): (paths: seq<string>)
    ensures |paths| == |names|
    ensures forall i :: 0 <= i < |names| ==> paths[i] == Paths.PathJoin(folder, names[i])
  {
    seq(|names|, i requires 0 <= i < |names| => Paths.PathJoin(folder, names[i]))
  }

  /** The paths whose item succeeded, in visiting order. */
  function Successes(paths: seq<string>, run: string -> Outcome): (ok: seq<string>)
    ensures |ok| <= |paths|
    decreases |paths|
  {
    if |paths| == 0 then []
    else
      var last := paths[|paths| - 1];
      Successes(paths[..|paths| - 1], run) + (if run(last).Succeeded? then [last] else [])
  }

  /** The paths whose item raised, in visiting order. */
  function Failures(paths: seq<string>, run: string -> Outcome): (failed: seq<string>)
    ensures |failed| <= |paths|
    decreases |paths|
  {
    if |paths| == 0 then []
    else
      var last := paths[|paths| - 1];
      Failures(paths[..|paths| - 1], run) + (if run(last).Failed? then [last] else [])
  }

  /** The text of the success log for the given paths: each followed by a newline. */
  function LogText(paths: seq<string>): (text: string)
    decreases |paths|
  {
    if |paths| == 0 then "" else paths[0] + "\n" + LogText(paths[1..])
  }

  /** Visiting two runs of files one after the other splits the successes
      accordingly: the list is not reordered, and what happens to later files
      does not depend on what happened to earlier ones. */
  lemma {:induction false} SuccessesAppend(a: seq<string>, b: seq<string>, run: string -> Outcome)
    ensures Successes(a + b, run) == Successes(a, run) + Successes(b, run)
    decreases |b|
  {
    if |b| == 0 {
      assert a + b == a;
    } else {
      var front := b[..|b| - 1];
      assert (a + b)[..|a + b| - 1] == a + front;
      assert (a + b)[|a + b| - 1] == b[|b| - 1];
      SuccessesAppend(a, front, run);
    }
  }

  /** The same for the failures. */
  lemma {:induction false} FailuresAppend(a: seq<string>, b: seq<string>, run: string -> Outcome)
    ensures Failures(a + b, run) == Failures(a, run) + Failures(b, run)
    decreases |b|
  {
    if |b| == 0 {
      assert a + b == a;
    } else {
      var front := b[..|b| - 1];
      assert (a + b)[..|a + b| - 1] == a + front;
      assert (a + b)[|a + b| - 1] == b[|b| - 1];
      FailuresAppend(a, front, run);
    }
  }

  /** One visited file on its own. */
  lemma Single(p: string, run: string -> Outcome)
    ensures Successes([p], run) == if run(p).Succeeded? then [p] else []
    ensures Failures([p], run) == if run(p).Failed? then [p] else []
    ensures LogText([p]) == p + "\n"
  {
    assert [p][..0] == [] && [p][1..] == [];
  }

  /** The success log of two runs of paths is the concatenation of their logs. */
  lemma {:induction false} LogTextAppend(a: seq<string>, b: seq<string>)
    ensures LogText(a + b) == LogText(a) + LogText(b)
    decreases |a|
  {
    if |a| == 0 {
      assert a + b == b;
    } else {
      assert (a + b)[1..] == a[1..] + b;
      LogTextAppend(a[1..], b);
    }
  }

  /** A failing file is recorded as an error only, and the files before and
      after it are recorded as if it had not been there. */
  lemma FailureIsolated(before: seq<string>, p: string, after: seq<string>, run: string -> Outcome)
    requires run(p).Failed?
    ensures Successes(before + [p] + after, run) == Successes(before, run) + Successes(after, run)
    ensures Failures(before + [p] + after, run) == Failures(before, run) + [p] + Failures(after, run)
  {
    SuccessesAppend(before + [p], after, run);
    SuccessesAppend(before, [p], run);
    FailuresAppend(before + [p], after, run);
    FailuresAppend(before, [p], run);
    Single(p, run);
    assert Successes(before + [p], run) == Successes(before, run) + [];
    assert Successes(before, run) + [] == Successes(before, run);
    assert Failures(before + [p], run) == Failures(before, run) + [p];
  }

  /** Every visited file is counted once: successes plus errors make up the
      number of files (the summary of line 289). */
  lemma {:induction false} PartitionCount(paths: seq<string>, run: string -> Outcome)
    ensures |Successes(paths, run)| + |Failures(paths, run)| == |paths|
    decreases |paths|
  {
    if |paths| > 0 {
      PartitionCount(paths[..|paths| - 1], run);
    }
  }

  /** The two lists together hold exactly the visited paths, with their
      multiplicities. */
  lemma {:induction false} PartitionMultiset(paths: seq<string>, run: string -> Outcome)
    ensures multiset(Successes(paths, run)) + multiset(Failures(paths, run)) == multiset(paths)
    decreases |paths|
  {
    if |paths| > 0 {
      var front, last := paths[..|paths| - 1], paths[|paths| - 1];
      var ok, failed := Successes(front, run), Failures(front, run);
      assert Successes(paths, run) == ok + (if run(last).Succeeded? then [last] else []);
      assert Failures(paths, run) == failed + (if run(last).Succeeded? then [] else [last]);
      assert paths == front + [last];
      PartitionMultiset(front, run);
      SplitStep(ok, failed, front, last, run(last).Succeeded?,
                Successes(paths, run), Failures(paths, run), paths);
    }
  }

  /** One more element goes to exactly one of two lists that together held
      the elements before it. */
  lemma SplitStep<T>(ok: seq<T>, failed: seq<T>, front: seq<T>, last: T, succeeded: bool,
                     ok': seq<T>, failed': seq<T>, all: seq<T>)
    requires multiset(ok) + multiset(failed) == multiset(front) && all == front + [last]
    requires ok' == ok + (if succeeded then [last] else [])
    requires failed' == failed + (if succeeded then [] else [last])
    ensures multiset(ok') + multiset(failed') == multiset(all)
  {
  }

  /** A path is in the success log exactly when it was visited and its item
      succeeded, and among the errors exactly when it was visited and its
      item raised; so a visited path is in exactly one of the two. */
  lemma {:induction false} Membership(paths: seq<string>, run: string -> Outcome, p: string)
    ensures p in Successes(paths, run) <==> p in paths && run(p).Succeeded?
    ensures p in Failures(paths, run) <==> p in paths && run(p).Failed?
    decreases |paths|
  {
    if |paths| > 0 {
      var front := paths[..|paths| - 1];
      Membership(front, run, p);
      assert p in paths <==> p in front || p == paths[|paths| - 1] by {
        assert paths == front + [paths[|paths| - 1]];
      }
    }
  }

  /** Reading the success log back line by line gives the successful paths
      again, followed by the empty text after the last newline, as long as
      no path holds a newline itself. */
  lemma {:induction false} LogLines(paths: seq<string>)
    requires forall i :: 0 <= i < |paths| ==> '\n' !in paths[i]
    ensures Paths.Split(LogText(paths), '\n') == paths + [""]
    decreases |paths|
  {
    if |paths| > 0 {
      LogLines(paths[1..]);
      Paths.SplitAfterPiece(paths[0], '\n', LogText(paths[1..]));
      assert paths[0] + "\n" + LogText(paths[1..]) == paths[0] + ['\n'] + LogText(paths[1..]);
      assert paths == [paths[0]] + paths[1..];
    }
  }

  /** What visiting one more file adds to the success log. */
  lemma LogAfterVisit(done: seq<string>, p: string, run: string -> Outcome)
    ensures LogText(Successes(done + [p], run)) ==
      LogText(Successes(done, run)) + (if run(p).Succeeded? then p + "\n" else "")
  {
    assert (done + [p])[..|done|] == done;
    Single(p, run);
    LogTextAppend(Successes(done, run), if run(p).Succeeded? then [p] else []);
    assert LogText([]) == "";
  }

  /** What visiting one more file adds to the errors. */
  lemma FailuresAfterVisit(done: seq<string>, p: string, run: string -> Outcome)
    ensures Failures(done + [p], run) == Failures(done, run) + (if run(p).Failed? then [p] else [])
  {
    assert (done + [p])[..|done|] == done;
  }

  /** Appending an entry to a record that already held a prefix. */
  lemma AppendEntry<T>(base: seq<T>, done: seq<T>, done': seq<T>, entry: seq<T>, before: seq<T>, after: seq<T>)
    requires before == base + done && done' == done + entry && after == before + entry
    ensures after == base + done'
  {
  }

  /** The success log as the loop writes it: one entry per visited file,
      appended in visiting order, empty for a file that raised. */
  function SuccessLog(paths: seq<string>, run: string -> Outcome): (text: string)
    decreases |paths|
  {
    if |paths| == 0 then ""
    else
      var last := paths[|paths| - 1];
      SuccessLog(paths[..|paths| - 1], run) + (if run(last).Succeeded? then last + "\n" else "")
  }

  /** Writing the log entry by entry gives the text of the log of the
      successful paths. */
  lemma {:induction false} SuccessLogText(paths: seq<string>, run: string -> Outcome)
    ensures SuccessLog(paths, run) == LogText(Successes(paths, run))
    decreases |paths|
  {
    if |paths| > 0 {
      var front, last := paths[..|paths| - 1], paths[|paths| - 1];
      assert paths == front + [last];
      SuccessLogText(front, run);
      LogAfterVisit(front, last, run);
    }
  }

  /** The loop step for the success log: when it held the log of `done`
      before a file's bookkeeping, it holds the log of `done + [p]` after it. */
  lemma LogStep(done: seq<string>, p: string, run: string -> Outcome, log0: string, log: string, log': string)
    requires log == log0 + SuccessLog(done, run)
    requires run(p).Succeeded? ==> log' == log + p + "\n"
    requires run(p).Failed? ==> log' == log
    ensures log' == log0 + SuccessLog(done + [p], run)
  {
    var entry := if run(p).Succeeded? then p + "\n" else "";
    assert SuccessLog(done + [p], run) == SuccessLog(done, run) + entry by {
      assert (done + [p])[..|done|] == done;
    }
    assert log' == log + entry by {
      if run(p).Failed? {
        assert log + "" == log;
      }
    }
    AppendEntry(log0, SuccessLog(done, run), SuccessLog(done + [p], run), entry, log, log');
  }

  /** The loop step for the errors: when they held the failures of `done`
      before a file's bookkeeping, they hold those of `done + [p]` after it. */
  lemma ErrorsStep(done: seq<string>, p: string, run: string -> Outcome,
                   errors0: seq<string>, errors: seq<string>, errors': seq<string>)
    requires errors == errors0 + Failures(done, run)
    requires run(p).Succeeded? ==> errors' == errors
    requires run(p).Failed? ==> errors' == errors + [p]
    ensures errors' == errors0 + Failures(done + [p], run)
  {
    FailuresAfterVisit(done, p, run);
    var entry := if run(p).Failed? then [p] else [];
    assert errors' == errors + entry by {
      if run(p).Succeeded? {
        assert errors + [] == errors;
      }
    }
    AppendEntry(errors0, Failures(done, run), Failures(done + [p], run), entry, errors, errors');
  }

  /** The state the loop keeps (lines 281-282 and 287): the success log's
      text and the list of failed paths. */
  class Ledger {
    var successLog: string
    var errorPaths: seq<string>

    /** Line 66: `error_paths` starts empty, as does a fresh success log. */
    constructor()
      ensures successLog == [] && errorPaths == []
    {
      successLog := [];
      errorPaths := [];
    }

    /** One item's bookkeeping: a success appends the path and a newline to
        the log (lines 281-282), a failure appends the path to the errors
        (line 287); the other record is left as it was. */
    method Record(path: string, outcome: Outcome)
      modifies this
      ensures outcome.Succeeded? ==> successLog == old(successLog) + path + "\n" && errorPaths == old(errorPaths)
      ensures outcome.Failed? ==> errorPaths == old(errorPaths) + [path] && successLog == old(successLog)
    {
      if outcome.Succeeded? {
        successLog := successLog + path + "\n";
      } else {
        errorPaths := errorPaths + [path];
      }
    }

    /** Lines 244-288: every name is visited in order; afterwards the log
        has gained the successful paths and the errors the failed ones, each
        in visiting order. */
    method RunAll(folder: string, names: seq<string>, run: string -> Outcome)
      modifies this
      ensures var paths := InputPaths(folder, names);
        && successLog == old(successLog) + LogText(Successes(paths, run))
        && errorPaths == old(errorPaths) + Failures(paths, run)
    {
      ghost var paths := InputPaths(folder, names);
      var i := 0;
      while i < |names|
        invariant 0 <= i <= |names|
        invariant successLog == old(successLog) + SuccessLog(paths[..i], run)
        invariant errorPaths == old(errorPaths) + Failures(paths[..i], run)
      {
        var path := Paths.PathJoin(folder, names[i]);
        ghost var log, errors := successLog, errorPaths;
        Record(path, run(path));
        LogStep(paths[..i], path, run, old(successLog), log, successLog);
        ErrorsStep(paths[..i], path, run, old(errorPaths), errors, errorPaths);
        assert paths[..i + 1] == paths[..i] + [path];
        i := i + 1;
      }
      assert paths[..|names|] == paths;
      SuccessLogText(paths, run);
    }
  }
}
