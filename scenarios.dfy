/**
 * Client code that drives the window through typical sequences, using
 * nothing but the methods' specifications: a two-file scan then verify, a
 * rejected path then a good one, a repeated repair, and the size tiers of
 * the summary.
 */
module Scenarios {
  import opened Wrappers
  import opened Engine
  import opened WindowState
  import opened Messages
  import opened HeaderSummary
  import opened ProgressTable
  import opened Controller
  import opened MainWindowModel

  const TwoFiles: seq<Event> := [FileName("a.txt"), Progress(1000.0), FileName("b.txt")]
  const TwoDone: seq<Event> := [Done("a.txt", 10, 10), Done("b.txt", 3, 10)]
  const Scanned2: seq<Row> := [Row("a.txt", Some(1000), None), Row("b.txt", None, None)]

  lemma TwoFilesReady()
    ensures RowsReady(Initial().panel, Scanning, TwoFiles)
  {
    assert TwoFiles[0].FileName?;
  }

  lemma TwoFilesAnnounceA()
    ensures RowsReady(Initial().panel, Scanning, TwoFiles[..1])
    ensures Replay(Initial().panel, Scanning, TwoFiles[..1]).rows == [Row("a.txt", None, None)]
  {
    var p0, es := Initial().panel, [FileName("a.txt")];
    assert TwoFiles[..1] == es;
    assert RowsReady(p0, Scanning, es) by { assert es[0].FileName?; }
    assert Replay(p0, Scanning, es) == Apply(p0, Scanning, es[0]) by {
      assert es[..0] == [];
    }
    assert Announce([], "a.txt") == [Row("a.txt", None, None)];
  }

  lemma TwoFilesFirst()
    ensures RowsReady(Initial().panel, Scanning, TwoFiles[..2])
    ensures Replay(Initial().panel, Scanning, TwoFiles[..2]).rows == [Row("a.txt", Some(1000), None)]
  {
    TwoFilesReady();
    TwoFilesAnnounceA();
    ReplayStep(Initial().panel, Scanning, TwoFiles, 1);
    assert TruncateToInt(1000.0) == 1000;
  }

  lemma TwoFilesScan()
    ensures RowsReady(Initial().panel, Scanning, TwoFiles)
    ensures Replay(Initial().panel, Scanning, TwoFiles).rows == Scanned2
  {
    var es, p0 := TwoFiles, Initial().panel;
    TwoFilesReady();
    TwoFilesFirst();
    ReplayStep(p0, Scanning, es, 2);
    assert es[..3] == es;
    var rows := Replay(p0, Scanning, es[..2]).rows;
    assert !Present(rows, "b.txt");
    assert Announce(rows, "b.txt") == Scanned2;
  }

  lemma TwoFilesVerify(p: Panel)
    requires p.rows == Scanned2
    ensures RowsReady(p, Verifying, TwoDone)
    ensures Replay(p, Verifying, TwoDone).rows == [Row("a.txt", Some(1000), None), Row("b.txt", None, Some(Blocks(3, 10)))]
  {
    var es := TwoDone;
    assert es[..1][..0] == [];
    assert Present(p.rows, "a.txt") by { assert p.rows[0].name == "a.txt"; }
    // a.txt's row is not the last one, so its counts land on b.txt's row,
    // where b.txt's own counts then overwrite them: a.txt's row never gets any
    assert Replay(p, Verifying, es[..1]).rows == [Row("a.txt", Some(1000), None), Row("b.txt", None, Some(Blocks(10, 10)))];
  }

  /** A scan announcing a.txt and b.txt, then a verification that finds the set repairable. */
  method ScanThenVerify() {
    var w := new MainWindow(None);
    TwoFilesScan();
    w.BrowseClicked(Some(ScanRun(true, EngineRun(TwoFiles, Success))));
    assert w.status == Verifiable && w.operation == Idle && w.rows == Scanned2;
    TwoFilesVerify(w.View());
    var called := w.VerifyClicked(EngineRun(TwoDone, RepairPossible));
    assert called && w.status == Repairable && w.repairEnabled && w.operation == Idle;
    assert |w.rows| == 2 && w.rows[0].name == "a.txt" && w.rows[1].name == "b.txt";
    assert w.rows[1].blocks == Some(Blocks(3, 10));
  }

  /**
   * A path the command line rejects: nothing reaches the engine, the status
   * stays undefined and the verify button is disabled; a good path loaded
   * next enables it again.
   */
  method InvalidPath() {
    var w := new MainWindow(Some(ScanRun(false, EngineRun([FileName("x.par2")], Success))));
    assert w.status == Undefined && w.fileLoaded && w.operation == Idle && !w.verifyEnabled;
    assert w.rows == [] && w.statusText == "The recovery file does not exist";
    w.BrowseClicked(Some(ScanRun(true, EngineRun([], Success))));
    assert w.status == Verifiable && w.verifyEnabled && w.statusText == "Scan complete";
  }

  /**
   * Verify finds the set repairable, which enables repair; a successful
   * repair completes it, and a second click on the still-enabled repair
   * button is refused without calling the engine.
   */
  method RepairWhenComplete() {
    var w := new MainWindow(Some(ScanRun(true, EngineRun([], Success))));
    assert w.verifyEnabled && w.status == Verifiable;
    var called := w.VerifyClicked(EngineRun([], RepairPossible));
    assert called && w.status == Repairable && w.repairEnabled;
    called := w.RepairClicked(EngineRun([Progress(500.0)], Success));
    assert called && w.status == Complete && w.repairEnabled && w.globalProgress == Some(500);
    called := w.RepairClicked(EngineRun([Progress(250.0)], Success));
    assert !called && w.status == Complete && w.statusText == "Archive complete";
    assert w.globalProgress == Some(500);
  }

  /** The byte-size tiers of the summary labels. */
  method SizeTiers() {
    var h := ParHeaders("", 500, -1, 7, 3 * 1024 * 1024, -1, 0);
    var l := Summarize(h);
    assert l.setId == LabelOnly && l.chunkSize == LabelOnly && l.recoverableFiles == LabelOnly;
    assert l.blockSize == WithSize(500, Bytes);
    assert l.dataSize == WithSize(3 * 1024 * 1024, Mbytes);
    assert UnitOf(2048) == Kbytes;
    assert l.dataBlocks == WithCount(7) && l.otherFiles == WithCount(0);
  }
}
