/** The values the recorder stages and the three outputs it drives. Matrices and images are
    carried only with the shape the recorder looks at (a row count, a size, being empty); each
    output is modelled as the sequence of calls it receives. */
module Sinks {
  import opened LexOrder

  /** A `cv::Mat_<double>`: the recorder reads only its row count. */
  datatype Matrix = Matrix(rows: nat, cols: nat, cells: seq<real>)

  const EMPTY_MATRIX: Matrix := Matrix(0, 0, [])

  datatype Size = Size(width: nat, height: nat)

  /** A `cv::Mat` image; `cv::Mat::empty()` holds when it has no pixels. */
  datatype Image = Image(rows: nat, cols: nat, pixels: seq<int>) {
    /** `cv::Mat::empty()`, which OpenCV defines as `total() == 0`: no pixels at all. */
    predicate Empty()
      ensures Empty() <==> rows * cols == 0
    {
      rows == 0 || cols == 0
    }

    /** `cv::Mat::size()`: width is the column count, height the row count, so the area is zero
        exactly for an empty image. */
    function FrameSize(): (r: Size)
      ensures r.width * r.height == 0 <==> Empty()
    {
      Size(cols, rows)
    }
  }

  /** `cv::Mat()`, the value the staged image is reset to. */
  const NO_IMAGE: Image := Image(0, 0, [])

  datatype Vec6 = Vec6(v0: real, v1: real, v2: real, v3: real, v4: real, v5: real)
  const ZERO_VEC6: Vec6 := Vec6(0.0, 0.0, 0.0, 0.0, 0.0, 0.0)
  datatype Point2 = Point2(x: real, y: real)
  datatype Point3 = Point3(x: real, y: real, z: real)

  /** An action unit's name and value. */
  type ActionUnit = (string, real)

  /** The column layout handed to `RecorderCSV::Open`. */
  datatype Schema = Schema(
    path: string,
    output2DLandmarks: bool, output3DLandmarks: bool, outputPDMParams: bool,
    outputPose: bool, outputAUs: bool, outputGaze: bool,
    numFaceLandmarks: nat, numModelModes: nat, numEyeLandmarks: nat,
    auNamesClass: seq<string>, auNamesReg: seq<string>)

  /** The arguments of one `RecorderCSV::WriteLine`. */
  datatype CsvRow = CsvRow(
    frame: nat, timestamp: real, success: bool, confidence: real,
    landmarks2D: Matrix, landmarks3D: Matrix, pdmParamsLocal: Matrix, pdmParamsGlobal: Vec6,
    headPose: Vec6, gazeDirection0: Point3, gazeDirection1: Point3, gazeAngle: Point2,
    eyeLandmarks: seq<Point2>, auIntensities: seq<ActionUnit>, auOccurences: seq<ActionUnit>)

  datatype CsvCall = CsvOpen(schema: Schema) | CsvWriteLine(row: CsvRow) | CsvClose

  /** The arguments of `RecorderHOG::SetObservationHOG`. */
  datatype HogObservation = HogObservation(
    goodFrame: bool, descriptor: Matrix, numCols: int, numRows: int, numChannels: int)

  datatype HogCall = HogOpen(path: string) | HogSet(observation: HogObservation) | HogWrite | HogClose

  /** How `cv::VideoWriter::open` ended: the writer opened, it returned without opening, or it
      threw a `cv::Exception`. */
  datatype OpenOutcome = Opened | NotOpened | Threw

  datatype VideoCall =
    | VideoOpen(path: string, codec: string, fps: real, frameSize: Size, outcome: OpenOutcome)
    | VideoWrite(frame: Image)
    | VideoRelease

  /** The two warnings the recorder prints. */
  datatype Warning = VideoWriterFailed(codec: string) | FrameNotSet

  /** The rows written to the CSV output, in order. */
  function Rows(log: seq<CsvCall>): (r: seq<CsvRow>)
    ensures |r| <= |log|
  {
    if log == [] then []
    else
      var last := log[|log| - 1];
      Rows(log[..|log| - 1]) + (if last.CsvWriteLine? then [last.row] else [])
  }

  /** The rows carry the frame numbers 1, 2, 3, ... in order. */
  predicate NumberedFromOne(rows: seq<CsvRow>) {
    if rows == [] then true
    else NumberedFromOne(rows[..|rows| - 1]) && rows[|rows| - 1].frame == |rows|
  }

  /** The headers the CSV output was opened with, in order. */
  function Headers(log: seq<CsvCall>): (r: seq<Schema>)
    ensures |r| <= |log|
  {
    if log == [] then []
    else
      var last := log[|log| - 1];
      Headers(log[..|log| - 1]) + (if last.CsvOpen? then [last.schema] else [])
  }

  /** No row was written before a header. */
  predicate HeaderPrecedesRows(log: seq<CsvCall>) {
    if log == [] then true
    else
      var prefix := log[..|log| - 1];
      HeaderPrecedesRows(prefix) && (log[|log| - 1].CsvOpen? ==> Rows(prefix) == [])
  }

  /** The frames handed to the video writer, in order. */
  function Frames(log: seq<VideoCall>): (r: seq<Image>)
    ensures |r| <= |log|
  {
    if log == [] then []
    else
      var last := log[|log| - 1];
      Frames(log[..|log| - 1]) + (if last.VideoWrite? then [last.frame] else [])
  }

  /** `VideoWriter::isOpened()` after the calls in `log`: the last open or release decides;
      writes change nothing. */
  function WriterOpen(log: seq<VideoCall>): bool {
    if log == [] then false
    else
      match log[|log| - 1]
      case VideoOpen(_, _, _, _, outcome) => outcome == Opened
      case VideoRelease => false
      case VideoWrite(_) => WriterOpen(log[..|log| - 1])
  }

  /** The call at `i` is an open that succeeded. */
  predicate SucceededAt(log: seq<VideoCall>, i: nat)
    requires i < |log|
  {
    log[i].VideoOpen? && log[i].outcome == Opened
  }

  /** Every call after position `i` is a write. */
  predicate OnlyWritesAfter(log: seq<VideoCall>, i: nat) {
    forall j :: i < j < |log| ==> log[j].VideoWrite?
  }

  /** `WriterOpen` described without recursion: the writer is open exactly when some open
      succeeded and the writer has been given only frames since. */
  lemma {:induction false} WriterOpenIsLastOpen(log: seq<VideoCall>)
    ensures WriterOpen(log) <==> exists i: nat :: i < |log| && SucceededAt(log, i) && OnlyWritesAfter(log, i)
  {
    if log != [] {
      var n := |log| - 1;
      var prefix := log[..n];
      assert log == prefix + [log[n]];
      if SucceededAt(log, n) {
        assert OnlyWritesAfter(log, n);
      } else if log[n].VideoWrite? {
        WriterOpenIsLastOpen(prefix);
        if WriterOpen(log) {
          var i: nat :| i < |prefix| && SucceededAt(prefix, i) && OnlyWritesAfter(prefix, i);
          assert SucceededAt(log, i);
          assert OnlyWritesAfter(log, i) by {
            forall j | i < j < |log| ensures log[j].VideoWrite? {
              if j < n { assert log[j] == prefix[j]; }
            }
          }
        } else {
          forall i: nat | i < |log| && SucceededAt(log, i) ensures !OnlyWritesAfter(log, i) {
            assert i < n && prefix[i] == log[i] && SucceededAt(prefix, i);
            assert !OnlyWritesAfter(prefix, i);
            var j :| i < j < |prefix| && !prefix[j].VideoWrite?;
            assert log[j] == prefix[j];
          }
        }
      } else {
        forall i: nat | i < |log| && SucceededAt(log, i) ensures !OnlyWritesAfter(log, i) {
          assert i < n;
          assert !log[n].VideoWrite?;
        }
      }
    }
  }

  /** How many records the HOG output was asked to write. */
  function HogWrites(log: seq<HogCall>): (n: nat)
    ensures n <= |log|
  {
    if log == [] then 0
    else HogWrites(log[..|log| - 1]) + (if log[|log| - 1].HogWrite? then 1 else 0)
  }

  /** How many times the HOG output was opened. */
  function HogOpens(log: seq<HogCall>): (n: nat)
    ensures n <= |log|
  {
    if log == [] then 0
    else HogOpens(log[..|log| - 1]) + (if log[|log| - 1].HogOpen? then 1 else 0)
  }

  /** How many times the video writer was asked to open. */
  function VideoOpens(log: seq<VideoCall>): (n: nat)
    ensures n <= |log|
  {
    if log == [] then 0
    else VideoOpens(log[..|log| - 1]) + (if log[|log| - 1].VideoOpen? then 1 else 0)
  }

  /** How many of the frames are empty images. */
  function EmptyFrames(frames: seq<Image>): (n: nat)
    ensures n <= |frames|
  {
    if frames == [] then 0
    else EmptyFrames(frames[..|frames| - 1]) + (if frames[|frames| - 1].Empty() then 1 else 0)
  }

  /** How many "frame not set" warnings were printed. */
  function FrameWarnings(warnings: seq<Warning>): (n: nat)
    ensures n <= |warnings|
  {
    if warnings == [] then 0
    else FrameWarnings(warnings[..|warnings| - 1]) + (if warnings[|warnings| - 1].FrameNotSet? then 1 else 0)
  }

  /** How many opens of the video writer threw. */
  function ThrownOpens(log: seq<VideoCall>): (n: nat)
    ensures n <= |log|
  {
    if log == [] then 0
    else ThrownOpens(log[..|log| - 1]) + (if log[|log| - 1].VideoOpen? && log[|log| - 1].outcome == Threw then 1 else 0)
  }

  /** How many "could not open VideoWriter" warnings were printed. */
  function WriterWarnings(warnings: seq<Warning>): (n: nat)
    ensures n <= |warnings|
  {
    if warnings == [] then 0
    else WriterWarnings(warnings[..|warnings| - 1]) + (if warnings[|warnings| - 1].VideoWriterFailed? then 1 else 0)
  }

  /** Every open of the video writer was made while it was not open. */
  predicate OpensOnlyWhenClosed(log: seq<VideoCall>) {
    if log == [] then true
    else
      var prefix := log[..|log| - 1];
      OpensOnlyWhenClosed(prefix) && (log[|log| - 1].VideoOpen? ==> !WriterOpen(prefix))
  }

  /** Headers stay ahead of rows when a call is appended, provided a header is appended only
      while no row has been written. */
  lemma HeaderPrecedesRowsAppend(log: seq<CsvCall>, c: CsvCall)
    requires HeaderPrecedesRows(log)
    requires c.CsvOpen? ==> Rows(log) == []
    ensures HeaderPrecedesRows(log + [c])
  {
    assert (log + [c])[..|log|] == log;
  }

  lemma RowsAppend(log: seq<CsvCall>, c: CsvCall)
    ensures c.CsvWriteLine? ==> Rows(log + [c]) == Rows(log) + [c.row]
    ensures !c.CsvWriteLine? ==> Rows(log + [c]) == Rows(log)
    ensures c.CsvOpen? ==> Headers(log + [c]) == Headers(log) + [c.schema]
    ensures !c.CsvOpen? ==> Headers(log + [c]) == Headers(log)
  {
    assert (log + [c])[..|log|] == log;
  }

  lemma NumberedFromOneAppend(rows: seq<CsvRow>, row: CsvRow)
    requires NumberedFromOne(rows) && row.frame == |rows| + 1
    ensures NumberedFromOne(rows + [row])
  {
    assert (rows + [row])[..|rows|] == rows;
  }

  lemma HogAppend(log: seq<HogCall>, c: HogCall)
    ensures HogWrites(log + [c]) == HogWrites(log) + (if c.HogWrite? then 1 else 0)
    ensures HogOpens(log + [c]) == HogOpens(log) + (if c.HogOpen? then 1 else 0)
  {
    assert (log + [c])[..|log|] == log;
  }

  lemma VideoAppend(log: seq<VideoCall>, c: VideoCall)
    ensures c.VideoWrite? ==> Frames(log + [c]) == Frames(log) + [c.frame]
    ensures !c.VideoWrite? ==> Frames(log + [c]) == Frames(log)
    ensures VideoOpens(log + [c]) == VideoOpens(log) + (if c.VideoOpen? then 1 else 0)
    ensures ThrownOpens(log + [c]) == ThrownOpens(log) + (if c.VideoOpen? && c.outcome == Threw then 1 else 0)
    ensures WriterOpen(log + [c]) == match c
      case VideoOpen(_, _, _, _, outcome) => outcome == Opened
      case VideoRelease => false
      case VideoWrite(_) => WriterOpen(log)
  {
    assert (log + [c])[..|log|] == log;
  }

  /** Appending an open adds no frame, and one thrown open when it threw; the writer is open
      afterwards exactly when it succeeded, and the open was made while closed exactly when the
      writer was closed. */
  lemma VideoOpenAppend(log: seq<VideoCall>, c: VideoCall)
    requires c.VideoOpen?
    ensures Frames(log + [c]) == Frames(log)
    ensures ThrownOpens(log + [c]) == ThrownOpens(log) + (if c.outcome == Threw then 1 else 0)
    ensures WriterOpen(log + [c]) == (c.outcome == Opened)
    ensures OpensOnlyWhenClosed(log + [c]) == (OpensOnlyWhenClosed(log) && !WriterOpen(log))
  {
    assert (log + [c])[..|log|] == log;
  }

  lemma EmptyFramesAppend(frames: seq<Image>, m: Image)
    ensures EmptyFrames(frames + [m]) == EmptyFrames(frames) + (if m.Empty() then 1 else 0)
  {
    assert (frames + [m])[..|frames|] == frames;
  }

  lemma FrameWarningsAppend(warnings: seq<Warning>, w: Warning)
    ensures FrameWarnings(warnings + [w]) == FrameWarnings(warnings) + (if w.FrameNotSet? then 1 else 0)
    ensures WriterWarnings(warnings + [w]) == WriterWarnings(warnings) + (if w.VideoWriterFailed? then 1 else 0)
  {
    assert (warnings + [w])[..|warnings|] == warnings;
  }

  /** A CSV header as the recorder builds it: for its own file, with both name lists sorted. */
  predicate GoodHeader(h: Schema, path: string) {
    h.path == path && Sorted(h.auNamesClass) && Sorted(h.auNamesReg)
  }

  /** The CSV output after `n` frames: one row per frame, numbered 1 to `n`; exactly one header
      once a frame has been written and none before; no row ahead of the header. */
  predicate CsvInvariant(log: seq<CsvCall>, n: nat, path: string) {
    && |Rows(log)| == n
    && NumberedFromOne(Rows(log))
    && HeaderPrecedesRows(log)
    && |Headers(log)| == (if n == 0 then 0 else 1)
    && (n > 0 ==> GoodHeader(Headers(log)[0], path))
  }

  /** Before any frame, the CSV output has received nothing. */
  lemma CsvStart(log: seq<CsvCall>, n: nat, path: string)
    requires log == [] && n == 0
    ensures CsvInvariant(log, n, path)
  {
  }

  /** Writing frame `n + 1`, preceded by its header when it is the first, keeps the invariant;
      `log'` is the log after the write. */
  lemma {:induction false} CsvWriteStep(
    log: seq<CsvCall>, n: nat, path: string, h: Schema, row: CsvRow, log': seq<CsvCall>)
    requires CsvInvariant(log, n, path)
    requires row.frame == n + 1
    requires n == 0 ==> GoodHeader(h, path)
    requires log' == log + (if n == 0 then [CsvOpen(h)] else []) + [CsvWriteLine(row)]
    ensures CsvInvariant(log', n + 1, path)
  {
    var log1 := log + (if n == 0 then [CsvOpen(h)] else []);
    if n == 0 {
      HeaderPrecedesRowsAppend(log, CsvOpen(h));
      RowsAppend(log, CsvOpen(h));
    } else {
      assert log1 == log;
    }
    RowsAppend(log1, CsvWriteLine(row));
    HeaderPrecedesRowsAppend(log1, CsvWriteLine(row));
    NumberedFromOneAppend(Rows(log1), row);
  }

  /** Closing the CSV output keeps the invariant. */
  lemma CsvCloseStep(log: seq<CsvCall>, n: nat, path: string)
    requires CsvInvariant(log, n, path)
    ensures CsvInvariant(log + [CsvClose], n, path)
  {
    RowsAppend(log, CsvClose);
    HeaderPrecedesRowsAppend(log, CsvClose);
  }

  /** The HOG output after `n` frames: opened once and given one record per frame when HOG
      output is on, untouched by either when it is off. */
  predicate HogInvariant(log: seq<HogCall>, n: nat, enabled: bool) {
    && HogWrites(log) == (if enabled then n else 0)
    && HogOpens(log) == (if enabled then 1 else 0)
  }

  /** Before any frame, the HOG output was opened once if HOG output is on and never otherwise. */
  lemma HogStart(log: seq<HogCall>, n: nat, enabled: bool, path: string)
    requires log == (if enabled then [HogOpen(path)] else []) && n == 0
    ensures HogInvariant(log, n, enabled)
  {
    if enabled {
      HogAppend([], HogOpen(path));
      assert log == [] + [HogOpen(path)];
    }
  }

  /** Appending a call that neither opens nor writes keeps the invariant. */
  lemma HogOtherStep(log: seq<HogCall>, n: nat, enabled: bool, c: HogCall)
    requires HogInvariant(log, n, enabled)
    requires !c.HogWrite? && !c.HogOpen?
    ensures HogInvariant(log + [c], n, enabled)
  {
    HogAppend(log, c);
  }

  /** A frame written with HOG output on adds one record; with it off, none. */
  lemma HogWriteStep(log: seq<HogCall>, n: nat, enabled: bool, log': seq<HogCall>)
    requires HogInvariant(log, n, enabled)
    requires log' == log + (if enabled then [HogWrite] else [])
    ensures HogInvariant(log', n + 1, enabled)
  {
    if enabled {
      HogAppend(log, HogWrite);
    } else {
      assert log' == log;
    }
  }

  /** The video writer after `n` frames: it got one frame per frame written when video output is
      on; one "frame not set" warning was printed per empty frame and one "could not open"
      warning per open that threw; it reports open exactly when its last open succeeded with no
      release after it; it was only ever opened while closed. With video output off it was never
      opened and nothing is staged for it. */
  predicate VideoInvariant(log: seq<VideoCall>, warnings: seq<Warning>, open: bool, n: nat, enabled: bool, staged: Image) {
    && |Frames(log)| == (if enabled then n else 0)
    && EmptyFrames(Frames(log)) == FrameWarnings(warnings)
    && ThrownOpens(log) == WriterWarnings(warnings)
    && open == WriterOpen(log)
    && OpensOnlyWhenClosed(log)
    && (!enabled ==> staged == NO_IMAGE && VideoOpens(log) == 0)
  }

  /** Before any frame, the video writer has received nothing and nothing is staged. */
  lemma VideoStart(log: seq<VideoCall>, warnings: seq<Warning>, open: bool, n: nat, enabled: bool, staged: Image)
    requires log == [] && warnings == [] && !open && n == 0 && staged == NO_IMAGE
    ensures VideoInvariant(log, warnings, open, n, enabled, staged)
  {
  }

  /** An open of the closed writer, with its warning when it throws, keeps the invariant. */
  lemma VideoOpenStep(
    log: seq<VideoCall>, warnings: seq<Warning>, n: nat, staged: Image, c: VideoCall,
    log': seq<VideoCall>, warnings': seq<Warning>, staged': Image)
    requires VideoInvariant(log, warnings, false, n, true, staged)
    requires c.VideoOpen? && log' == log + [c]
    requires warnings' == warnings + (if c.outcome == Threw then [VideoWriterFailed(c.codec)] else [])
    ensures VideoInvariant(log', warnings', c.outcome == Opened, n, true, staged')
  {
    VideoOpenAppend(log, c);
    if c.outcome == Threw {
      FrameWarningsAppend(warnings, VideoWriterFailed(c.codec));
    } else {
      assert warnings' == warnings;
    }
  }

  /** With video output on, staging another image keeps the invariant. */
  lemma VideoStageStep(log: seq<VideoCall>, warnings: seq<Warning>, open: bool, n: nat, staged: Image, staged': Image)
    requires VideoInvariant(log, warnings, open, n, true, staged)
    ensures VideoInvariant(log, warnings, open, n, true, staged')
  {
  }

  /** Handing the staged image to the writer, with a warning when it is empty, keeps the
      invariant with one more frame. */
  lemma VideoWriteStep(
    log: seq<VideoCall>, warnings: seq<Warning>, open: bool, n: nat, staged: Image,
    log': seq<VideoCall>, warnings': seq<Warning>, staged': Image)
    requires VideoInvariant(log, warnings, open, n, true, staged)
    requires log' == log + [VideoWrite(staged)]
    requires warnings' == warnings + (if staged.Empty() then [FrameNotSet] else [])
    ensures VideoInvariant(log', warnings', open, n + 1, true, staged')
  {
    VideoAppend(log, VideoWrite(staged));
    EmptyFramesAppend(Frames(log), staged);
    assert log'[..|log|] == log;
    if staged.Empty() {
      FrameWarningsAppend(warnings, FrameNotSet);
    } else {
      assert warnings' == warnings;
    }
  }

  /** Releasing the writer keeps the invariant and leaves it closed. */
  lemma VideoReleaseStep(log: seq<VideoCall>, warnings: seq<Warning>, open: bool, n: nat, enabled: bool, staged: Image)
    requires VideoInvariant(log, warnings, open, n, enabled, staged)
    ensures VideoInvariant(log + [VideoRelease], warnings, false, n, enabled, staged)
  {
    VideoAppend(log, VideoRelease);
    assert (log + [VideoRelease])[..|log|] == log;
  }
}
