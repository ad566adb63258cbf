/**
 * The per-file table (Filename / Progress / Block) and the other widgets the
 * engine's callbacks write to, as values. Rows are only ever appended or
 * edited in place: nothing removes or reorders them.
 */
module ProgressTable {
  import opened Wrappers
  import opened Engine
  import opened WindowState
  import opened HeaderSummary

  /** The "available / total" text of the Block column. */
  datatype Blocks = Blocks(available: int, total: int)

  /**
   * One table row. `progress` is None while the row's bar has never been
   * given a value (a new bar is in its reset state and shows empty).
   */
  datatype Row = Row(name: string, progress: Option<int>, blocks: Option<Blocks>)

  /** The widgets the callbacks write: the table, the global bar, nbfiles, the summary labels. */
  datatype Panel = Panel(rows: seq<Row>, global: Option<int>, nbfiles: Option<int>, labels: Option<HeaderLabels>)

  predicate Present(rows: seq<Row>, name: string) {
    exists k :: 0 <= k < |rows| && rows[k].name == name
  }

  predicate UniqueNames(rows: seq<Row>) {
    forall i, j :: 0 <= i < j < |rows| ==> rows[i].name != rows[j].name
  }

  function NameSet(rows: seq<Row>): set<string> {
    set k | 0 <= k < |rows| :: rows[k].name
  }

  /**
   * The C++ cast `(int)progress`: truncation toward zero. Out-of-range values
   * are kept, not clamped to 0..1000.
   */
  function TruncateToInt(x: real): (n: int)
    ensures 0.0 <= x ==> n as real <= x < n as real + 1.0
    ensures x < 0.0 ==> n as real - 1.0 < x <= n as real
  {
    if x >= 0.0 then x.Floor else -((-x).Floor)
  }

  /**
   * The table after signal_filename(name): a row for `name` is appended at
   * the end, with an empty bar and no block counts, unless one exists; the
   * existing rows are kept as they were.
   */
  function Announce(rows: seq<Row>, name: string): (r: seq<Row>)
    ensures |r| == if Present(rows, name) then |rows| else |rows| + 1
    ensures r[..|rows|] == rows
    ensures |r| > |rows| ==> r[|rows|] == Row(name, None, None)
    ensures Present(r, name)
    ensures NameSet(r) == NameSet(rows) + {name}
    ensures UniqueNames(rows) ==> UniqueNames(r)
  {
    if Present(rows, name) then rows
    else
      var r := rows + [Row(name, None, None)];
      assert r[|rows|].name == name;
      assert NameSet(r) == NameSet(rows) + {name} by {
        forall x | x in NameSet(r) ensures x in NameSet(rows) + {name} {
          var k :| 0 <= k < |r| && r[k].name == x;
          if k < |rows| { assert rows[k].name == x; }
        }
        forall x | x in NameSet(rows) + {name} ensures x in NameSet(r) {
          if x != name {
            var k :| 0 <= k < |rows| && rows[k].name == x;
            assert r[k].name == x;
          }
        }
      }
      r
  }

  /**
   * The table after a progress callback during a scan or a verification:
   * the last row's bar shows `p`, and nothing else changes.
   */
  function SetLastProgress(rows: seq<Row>, p: int): (r: seq<Row>)
    requires |rows| > 0
    ensures |r| == |rows| && r[..|r| - 1] == rows[..|rows| - 1]
    ensures r[|r| - 1].name == rows[|rows| - 1].name && r[|r| - 1].blocks == rows[|rows| - 1].blocks
    ensures r[|r| - 1].progress == Some(p)
    ensures NameSet(r) == NameSet(rows)
    ensures UniqueNames(rows) ==> UniqueNames(r)
  {
    var r := rows[|rows| - 1 := rows[|rows| - 1].(progress := Some(p))];
    assert forall k :: 0 <= k < |r| ==> r[k].name == rows[k].name;
    r
  }

  /**
   * The table after signal_done(name, available, total). When `name` has no
   * row yet, it gains one at the end that carries the counts. When the last
   * row is another file's, that row is the one given the counts (the
   * callback only ever looks at the last row); all earlier rows are kept.
   */
  function MarkDone(rows: seq<Row>, name: string, available: int, total: int): (r: seq<Row>)
    requires |rows| > 0
    ensures |r| == if Present(rows, name) then |rows| else |rows| + 1
    ensures r[..|r| - 1] == rows[..|r| - 1]
    ensures r[|r| - 1].blocks == Some(Blocks(available, total))
    ensures !Present(rows, name) ==> r[|r| - 1] == Row(name, None, Some(Blocks(available, total)))
    ensures Present(rows, name) ==> r[|r| - 1] == rows[|rows| - 1].(blocks := Some(Blocks(available, total)))
    ensures NameSet(r) == NameSet(rows) + {name}
    ensures UniqueNames(rows) ==> UniqueNames(r)
  {
    var a := if rows[|rows| - 1].name != name then Announce(rows, name) else rows;
    assert Present(rows, name) ==> a == rows;
    var r := a[|a| - 1 := a[|a| - 1].(blocks := Some(Blocks(available, total)))];
    assert forall k :: 0 <= k < |r| ==> r[k].name == a[k].name;
    assert NameSet(r) == NameSet(a);
    r
  }

  /** The callbacks that index the last row, which must then exist. */
  predicate NeedsRow(op: Operation, e: Event) {
    e.Done? || (e.Progress? && (op.Scanning? || op.Verifying?))
  }

  /**
   * The engine announces a file before any callback that needs a row: each
   * such callback comes when the table already has a row or after a
   * file-name callback.
   */
  predicate RowsReady(p: Panel, op: Operation, es: seq<Event>) {
    forall i :: 0 <= i < |es| && NeedsRow(op, es[i]) ==>
      |p.rows| > 0 || exists j :: 0 <= j < i && es[j].FileName?
  }

  /**
   * The widgets after one callback made while `op` runs. Each callback
   * touches its own widgets only: names and done counts go to the table,
   * progress goes to the last row while scanning or verifying and to the
   * global bar otherwise, and headers go to the summary labels.
   */
  function Apply(p: Panel, op: Operation, e: Event): (r: Panel)
    requires NeedsRow(op, e) ==> |p.rows| > 0
    ensures e.FileName? ==> r.rows == Announce(p.rows, e.name)
    ensures e.Done? ==> r.rows == MarkDone(p.rows, e.name, e.available, e.total)
    ensures e.Progress? && (op.Verifying? || op.Scanning?) ==>
      r.rows == SetLastProgress(p.rows, TruncateToInt(e.value)) && r.global == p.global
    ensures e.Progress? && !(op.Verifying? || op.Scanning?) ==>
      r.rows == p.rows && r.global == Some(TruncateToInt(e.value))
    ensures !e.Progress? ==> r.global == p.global
    ensures e.Headers? ==> r.rows == p.rows && r.labels == Some(Summarize(e.headers))
    ensures e.Headers? && e.headers.recoverableFiles != -1 ==> r.nbfiles == Some(e.headers.recoverableFiles)
    ensures !(e.Headers? && e.headers.recoverableFiles != -1) ==> r.nbfiles == p.nbfiles
    ensures !e.Headers? ==> r.labels == p.labels
  {
    match e
    case FileName(name) => p.(rows := Announce(p.rows, name))
    case Progress(value) =>
      if op.Verifying? || op.Scanning? then p.(rows := SetLastProgress(p.rows, TruncateToInt(value)))
      else p.(global := Some(TruncateToInt(value)))
    case Done(name, available, total) => p.(rows := MarkDone(p.rows, name, available, total))
    case Headers(h) =>
      p.(labels := Some(Summarize(h)),
         nbfiles := if h.recoverableFiles != -1 then Some(h.recoverableFiles) else p.nbfiles)
  }

  /** Some callback of `es` announces a file. */
  predicate Announces(es: seq<Event>) {
    exists j :: 0 <= j < |es| && es[j].FileName?
  }

  /**
   * The widgets after the callbacks `es`, in order. The table never
   * shrinks, and it is non-empty once a file has been announced.
   */
  function Replay(p: Panel, op: Operation, es: seq<Event>): (r: Panel)
    requires RowsReady(p, op, es)
    ensures |r.rows| >= |p.rows|
    ensures Announces(es) ==> |r.rows| > 0
    decreases |es|
  {
    if es == [] then p
    else
      var n := |es| - 1;
      var front := es[..n];
      assert forall k :: 0 <= k < n ==> front[k] == es[k];
      var q := Replay(p, op, front);
      assert NeedsRow(op, es[n]) ==> |q.rows| > 0 by {
        if NeedsRow(op, es[n]) && |p.rows| == 0 {
          var j :| 0 <= j < n && es[j].FileName?;
          assert front[j].FileName?;
        }
      }
      Apply(q, op, es[n])
  }

  /** Every prefix of a well-formed callback stream is well-formed. */
  lemma RowsReadyPrefix(p: Panel, op: Operation, es: seq<Event>, n: nat)
    requires RowsReady(p, op, es) && n <= |es|
    ensures RowsReady(p, op, es[..n])
  {
    assert forall k :: 0 <= k < n ==> es[..n][k] == es[k];
  }

  /** Replaying one more callback of a well-formed stream applies that callback. */
  lemma ReplayStep(p: Panel, op: Operation, es: seq<Event>, i: nat)
    requires RowsReady(p, op, es) && i < |es|
    ensures RowsReady(p, op, es[..i]) && RowsReady(p, op, es[..i + 1])
    ensures NeedsRow(op, es[i]) ==> |Replay(p, op, es[..i]).rows| > 0
    ensures Replay(p, op, es[..i + 1]) == Apply(Replay(p, op, es[..i]), op, es[i])
  {
    RowsReadyPrefix(p, op, es, i);
    RowsReadyPrefix(p, op, es, i + 1);
    assert es[..i + 1][..i] == es[..i] && es[..i + 1][i] == es[i];
    if NeedsRow(op, es[i]) && |p.rows| == 0 {
      var j :| 0 <= j < i && es[j].FileName?;
      assert es[..i][j].FileName?;
    }
  }

  /** The names of the files the callbacks `es` announce or complete. */
  function EventNames(es: seq<Event>): set<string> {
    set k | 0 <= k < |es| && (es[k].FileName? || es[k].Done?) :: es[k].name
  }

  /** Splitting off the last callback splits the announced names accordingly. */
  lemma EventNamesSnoc(es: seq<Event>)
    requires |es| > 0
    ensures EventNames(es) == EventNames(es[..|es| - 1]) +
              (if es[|es| - 1].FileName? || es[|es| - 1].Done? then {es[|es| - 1].name} else {})
  {
  }

  /** One callback never gives a file name a second row. */
  lemma ApplyKeepsNamesUnique(q: Panel, op: Operation, e: Event)
    requires (NeedsRow(op, e) ==> |q.rows| > 0) && UniqueNames(q.rows)
    ensures UniqueNames(Apply(q, op, e).rows)
  {
  }

  /** No stream of callbacks gives a file name a second row. */
  lemma {:induction false} ReplayKeepsNamesUnique(p: Panel, op: Operation, es: seq<Event>)
    requires RowsReady(p, op, es) && UniqueNames(p.rows)
    ensures UniqueNames(Replay(p, op, es).rows)
    decreases |es|
  {
    if es != [] {
      var n := |es| - 1;
      ReplayStep(p, op, es, n);
      assert es[..n + 1] == es;
      ReplayKeepsNamesUnique(p, op, es[..n]);
      ApplyKeepsNamesUnique(Replay(p, op, es[..n]), op, es[n]);
    }
  }

  /** What one callback does to the rows' names. */
  lemma ApplyNames(q: Panel, op: Operation, e: Event)
    requires NeedsRow(op, e) ==> |q.rows| > 0
    ensures NameSet(Apply(q, op, e).rows) ==
              NameSet(q.rows) + (if e.FileName? || e.Done? then {e.name} else {})
    ensures |Apply(q, op, e).rows| >= |q.rows|
    ensures forall k :: 0 <= k < |q.rows| ==> Apply(q, op, e).rows[k].name == q.rows[k].name
  {
  }

  /**
   * The rows' names after the callbacks are the names before plus every
   * name announced or completed.
   */
  lemma {:induction false} ReplayNames(p: Panel, op: Operation, es: seq<Event>)
    requires RowsReady(p, op, es)
    ensures NameSet(Replay(p, op, es).rows) == NameSet(p.rows) + EventNames(es)
    decreases |es|
  {
    if es != [] {
      var n := |es| - 1;
      ReplayStep(p, op, es, n);
      assert es[..n + 1] == es;
      ReplayNames(p, op, es[..n]);
      EventNamesSnoc(es);
      ApplyNames(Replay(p, op, es[..n]), op, es[n]);
    }
  }

  /** The rows present before the callbacks keep their names and their places. */
  lemma {:induction false} ReplayKeepsOrder(p: Panel, op: Operation, es: seq<Event>)
    requires RowsReady(p, op, es)
    ensures forall k :: 0 <= k < |p.rows| ==> Replay(p, op, es).rows[k].name == p.rows[k].name
    decreases |es|
  {
    if es != [] {
      var n := |es| - 1;
      ReplayStep(p, op, es, n);
      assert es[..n + 1] == es;
      ReplayKeepsOrder(p, op, es[..n]);
      ApplyNames(Replay(p, op, es[..n]), op, es[n]);
    }
  }

  /** The names of a table are those of all but its last row, plus the last one's. */
  lemma NameSetSnoc(rows: seq<Row>)
    requires |rows| > 0
    ensures NameSet(rows) == NameSet(rows[..|rows| - 1]) + {rows[|rows| - 1].name}
  {
    var n := |rows| - 1;
    var front := rows[..n];
    forall x | x in NameSet(rows) ensures x in NameSet(front) + {rows[n].name} {
      var k :| 0 <= k < |rows| && rows[k].name == x;
      if k < n { assert front[k] == rows[k]; }
    }
    forall x | x in NameSet(front) ensures x in NameSet(rows) {
      var k :| 0 <= k < n && front[k].name == x;
      assert rows[k] == front[k];
    }
  }

  /** A table with unique names has as many rows as names. */
  lemma {:induction false} UniqueNamesCount(rows: seq<Row>)
    requires UniqueNames(rows)
    ensures |NameSet(rows)| == |rows|
    decreases |rows|
  {
    if rows != [] {
      var n := |rows| - 1;
      var front := rows[..n];
      assert UniqueNames(front) by {
        forall i, j | 0 <= i < j < n ensures front[i].name != front[j].name {
          assert front[i] == rows[i] && front[j] == rows[j];
        }
      }
      UniqueNamesCount(front);
      NameSetSnoc(rows);
      assert rows[n].name !in NameSet(front) by {
        forall k | 0 <= k < n ensures front[k].name != rows[n].name {
          assert front[k] == rows[k];
        }
      }
    }
  }

  /**
   * Starting from a table with unique names, the callbacks leave exactly one
   * row per distinct file name seen: the old ones and those announced or
   * completed.
   */
  lemma RowCountIsDistinctNames(p: Panel, op: Operation, es: seq<Event>)
    requires RowsReady(p, op, es) && UniqueNames(p.rows)
    ensures |Replay(p, op, es).rows| == |NameSet(p.rows) + EventNames(es)|
  {
    ReplayKeepsNamesUnique(p, op, es);
    ReplayNames(p, op, es);
    UniqueNamesCount(Replay(p, op, es).rows);
  }
}
