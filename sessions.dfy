/** Whole recording sessions, from construction to the last call, and what each output holds at
    the end. */
module Sessions {
  import opened Sinks
  import opened Recorder

  /** A freshly constructed recorder, with what the sessions below rely on: frame 0, every
      invariant in place, and nothing sent to the CSV and video outputs yet. */
  method Start(outDirectory: string, inFilename: string, params: Parameters) returns (r: RecorderOpenFace)
    ensures fresh(r) && r.Valid() && r.params == params
    ensures r.observationCount == 0 && r.csvLog == [] && r.videoLog == [] && r.warnings == []
    ensures !r.videoOpen && r.visToOut == NO_IMAGE
    ensures !params.outputHOG ==> r.hogLog == []
  {
    r := new RecorderOpenFace(outDirectory, inFilename, params);
  }

  /** CSV-only recording of three frames: one header, three rows numbered 1 to 3, and the HOG
      and video outputs untouched. */
  method TabularSession(outDirectory: string, inFilename: string, params: Parameters)
    returns (csv: seq<CsvCall>, hog: seq<HogCall>, video: seq<VideoCall>)
    requires !params.outputHOG && !params.outputTrackedVideo
    ensures |Headers(csv)| == 1 && |Rows(csv)| == 3
    ensures forall i :: 0 <= i < 3 ==> Rows(csv)[i].frame == i + 1
    ensures hog == [] && video == []
  {
    var r := Start(outDirectory, inFilename, params);
    r.WriteObservation();
    r.WriteObservation();
    r.WriteObservation();
    csv, hog, video := r.csvLog, r.hogLog, r.videoLog;
    NumberedRows(Rows(csv));
  }

  /** Rows numbered from one carry their position plus one. */
  lemma {:induction false} NumberedRows(rows: seq<CsvRow>)
    requires NumberedFromOne(rows)
    ensures forall i :: 0 <= i < |rows| ==> rows[i].frame == i + 1
  {
    if rows != [] {
      NumberedRows(rows[..|rows| - 1]);
      forall i | 0 <= i < |rows| - 1 ensures rows[i].frame == i + 1 {
        assert rows[i] == rows[..|rows| - 1][i];
      }
    }
  }

  /** With video output on, a frame written without a visualization staged is still handed to
      the writer, as an empty image, and a warning is printed. */
  method UnsetFrameSession(outDirectory: string, inFilename: string, params: Parameters)
    returns (video: seq<VideoCall>, warnings: seq<Warning>)
    requires params.outputTrackedVideo
    ensures Frames(video) == [NO_IMAGE]
    ensures warnings == [FrameNotSet]
  {
    var r := Start(outDirectory, inFilename, params);
    r.WriteObservation();
    video, warnings := r.videoLog, r.warnings;
    VideoAppend([], VideoWrite(NO_IMAGE));
  }

  /** An open that throws leaves the writer closed with a warning, and the next visualization
      tries again. */
  method RetriedOpenSession(outDirectory: string, inFilename: string, params: Parameters, frame: Image)
    returns (video: seq<VideoCall>, warnings: seq<Warning>, open: bool)
    requires params.outputTrackedVideo
    ensures VideoOpens(video) == 2
    ensures warnings == [VideoWriterFailed(params.outputCodec)]
    ensures open
  {
    var r := Start(outDirectory, inFilename, params);
    r.SetObservationVisualization(frame, Threw);
    r.SetObservationVisualization(frame, Opened);
    video, warnings, open := r.videoLog, r.warnings, r.videoOpen;
    var c := VideoOpen(r.videoFilename, params.outputCodec, params.outputFps, frame.FrameSize(), Threw);
    var c' := VideoOpen(r.videoFilename, params.outputCodec, params.outputFps, frame.FrameSize(), Opened);
    VideoAppend([], c);
    VideoAppend([c], c');
    assert [] + [c] == [c];
  }

  /** Nothing stops a write after `Close`: the CSV output had one row when it was closed and
      has two after the next write; the HOG output, closed as well, gets its record too. */
  method WriteAfterCloseSession(outDirectory: string, inFilename: string, params: Parameters)
    returns (rowsAtClose: nat, rowsAtEnd: nat, hogRecordsAtEnd: nat)
    requires params.outputHOG
    ensures rowsAtClose == 1 && rowsAtEnd == 2
    ensures hogRecordsAtEnd == 2
  {
    var r := Start(outDirectory, inFilename, params);
    r.WriteObservation();
    r.Close();
    rowsAtClose := |Rows(r.csvLog)|;
    r.WriteObservation();
    rowsAtEnd := |Rows(r.csvLog)|;
    hogRecordsAtEnd := HogWrites(r.hogLog);
  }
}
