/** `RecorderOpenFace`: the per-frame recorder. Callers stage one frame's measurements with the
    `SetObservation*` setters and then call `WriteObservation`, which sends the frame to the CSV
    output (always), the HOG output (when enabled) and the tracked video (when enabled). */
module Recorder {
  import opened LexOrder
  import opened NameSort
  import opened Paths
  import opened Sinks

  /** `RecorderOpenFaceParameters`: which outputs are wanted, and how to encode the video. */
  datatype Parameters = Parameters(
    output2DLandmarks: bool, output3DLandmarks: bool, outputPDMParams: bool, outputPose: bool,
    outputAUs: bool, outputGaze: bool, outputHOG: bool, outputTrackedVideo: bool,
    outputCodec: string, outputFps: real)

  /** The names of staged action units, in staging order. */
  function Keys(aus: seq<ActionUnit>): seq<string> {
    seq(|aus|, i requires 0 <= i < |aus| => aus[i].0)
  }

  /** The header a first frame gets: landmark and mode counts are half the row counts, the eye
      landmark count is the number of eye landmarks, the name lists are the sorted keys. */
  function SchemaOf(
    params: Parameters, path: string, landmarks2D: Matrix, pdmParamsLocal: Matrix,
    eyeLandmarks: seq<Point2>, auOccurences: seq<ActionUnit>, auIntensities: seq<ActionUnit>): (s: Schema)
    ensures 2 * s.numFaceLandmarks <= landmarks2D.rows < 2 * s.numFaceLandmarks + 2
    ensures 2 * s.numModelModes <= pdmParamsLocal.rows < 2 * s.numModelModes + 2
  {
    Schema(
      path, params.output2DLandmarks, params.output3DLandmarks, params.outputPDMParams,
      params.outputPose, params.outputAUs, params.outputGaze,
      landmarks2D.rows / 2, pdmParamsLocal.rows / 2, |eyeLandmarks|,
      SortedNames(Keys(auOccurences)), SortedNames(Keys(auIntensities)))
  }

  /** What the header states: the face landmark count is half the 2D landmark rows (x and y
      are stacked), the model mode count half the local parameter rows, the eye landmark count
      the number of eye landmarks; both name lists are the staged names, sorted; the outputs
      switched on are those of the parameters. */
  lemma SchemaOfHeader(
    params: Parameters, path: string, landmarks2D: Matrix, pdmParamsLocal: Matrix,
    eyeLandmarks: seq<Point2>, auOccurences: seq<ActionUnit>, auIntensities: seq<ActionUnit>)
    ensures var s := SchemaOf(params, path, landmarks2D, pdmParamsLocal, eyeLandmarks, auOccurences, auIntensities);
      && s.path == path
      && 2 * s.numFaceLandmarks <= landmarks2D.rows < 2 * s.numFaceLandmarks + 2
      && 2 * s.numModelModes <= pdmParamsLocal.rows < 2 * s.numModelModes + 2
      && s.numEyeLandmarks == |eyeLandmarks|
      && Sorted(s.auNamesClass) && multiset(s.auNamesClass) == multiset(Keys(auOccurences))
      && Sorted(s.auNamesReg) && multiset(s.auNamesReg) == multiset(Keys(auIntensities))
      && s.output2DLandmarks == params.output2DLandmarks && s.output3DLandmarks == params.output3DLandmarks
      && s.outputPDMParams == params.outputPDMParams && s.outputPose == params.outputPose
      && s.outputAUs == params.outputAUs && s.outputGaze == params.outputGaze
  {
    SortedNamesSorted(Keys(auOccurences));
    SortedNamesSorted(Keys(auIntensities));
    SortedNamesPermutes(Keys(auOccurences));
    SortedNamesPermutes(Keys(auIntensities));
  }

  /** The header does not depend on the order the action units were staged in, only on which
      names were staged. */
  lemma SchemaIgnoresStagingOrder(
    params: Parameters, path: string, landmarks2D: Matrix, pdmParamsLocal: Matrix,
    eyeLandmarks: seq<Point2>, occ: seq<ActionUnit>, occ': seq<ActionUnit>,
    inten: seq<ActionUnit>, inten': seq<ActionUnit>)
    requires multiset(Keys(occ)) == multiset(Keys(occ'))
    requires multiset(Keys(inten)) == multiset(Keys(inten'))
    ensures SchemaOf(params, path, landmarks2D, pdmParamsLocal, eyeLandmarks, occ, inten)
         == SchemaOf(params, path, landmarks2D, pdmParamsLocal, eyeLandmarks, occ', inten')
  {
    SortedNamesSorted(Keys(occ));
    SortedNamesPermutes(Keys(occ));
    SortedNamesSorted(Keys(occ'));
    SortedNamesPermutes(Keys(occ'));
    SortedNamesSorted(Keys(inten));
    SortedNamesPermutes(Keys(inten));
    SortedNamesSorted(Keys(inten'));
    SortedNamesPermutes(Keys(inten'));
    SortedUnique(SortedNames(Keys(occ)), SortedNames(Keys(occ')));
    SortedUnique(SortedNames(Keys(inten)), SortedNames(Keys(inten')));
  }

  /** The header's name list: each staged name pushed onto a vector, then the vector sorted in
      place. The result is the staged names in sorted order. */
  method AuNames(aus: seq<ActionUnit>) returns (names: seq<string>)
    ensures names == SortedNames(Keys(aus))
  {
    var a := new string[|aus|];
    var i := 0;
    while i < |aus|
      invariant 0 <= i <= |aus|
      invariant a[..i] == Keys(aus)[..i]
    {
      a[i] := aus[i].0;
      i := i + 1;
    }
    assert a[..] == Keys(aus);
    SortInPlace(a);
    names := a[..];
    SortedNamesSorted(Keys(aus));
    SortedNamesPermutes(Keys(aus));
    SortedUnique(names, SortedNames(Keys(aus)));
  }

  class RecorderOpenFace {
    const params: Parameters
    /** The input name without directory and extension. */
    const filename: string
    const recordRoot: string
    const csvFilename: string
    /** Set only when tracked video is wanted. */
    const videoFilename: string

    /** The number of frames written so far. */
    var observationCount: nat

    // The staged frame.
    var timestamp: real
    var landmarkDetectionSuccess: bool
    var landmarkDetectionConfidence: real
    var landmarks2D: Matrix
    var landmarks3D: Matrix
    var pdmParamsGlobal: Vec6
    var pdmParamsLocal: Matrix
    var headPose: Vec6
    var auIntensities: seq<ActionUnit>
    var auOccurences: seq<ActionUnit>
    var gazeDirection0: Point3
    var gazeDirection1: Point3
    var gazeAngle: Point2
    var eyeLandmarks: seq<Point2>
    /** The visualization image waiting to go into the video. */
    var visToOut: Image

    // The outputs: the calls each of csv_recorder, hog_recorder and video_writer received.
    var csvLog: seq<CsvCall>
    var hogLog: seq<HogCall>
    var videoLog: seq<VideoCall>
    /** `video_writer.isOpened()`. */
    var videoOpen: bool
    /** The warnings printed. */
    var warnings: seq<Warning>

    /** The recorder's invariant, one conjunct per output: see `CsvInvariant`, `HogInvariant`
        and `VideoInvariant`. */
    ghost predicate Valid()
      reads this
    {
      && CsvInvariant(csvLog, observationCount, csvFilename)
      && HogInvariant(hogLog, observationCount, params.outputHOG)
      && VideoInvariant(videoLog, warnings, videoOpen, observationCount, params.outputTrackedVideo, visToOut)
    }

    /** The staged members that have a default value hold it: empty images, matrices and lists,
        zero vectors and points. */
    ghost predicate NothingStaged()
      reads this
    {
      && visToOut == NO_IMAGE && auIntensities == [] && auOccurences == [] && eyeLandmarks == []
      && landmarks2D == EMPTY_MATRIX && landmarks3D == EMPTY_MATRIX && pdmParamsLocal == EMPTY_MATRIX
      && pdmParamsGlobal == ZERO_VEC6 && headPose == ZERO_VEC6 && gazeAngle == Point2(0.0, 0.0)
      && gazeDirection0 == Point3(0.0, 0.0, 0.0) && gazeDirection1 == Point3(0.0, 0.0, 0.0)
    }

    /** The header the staged frame would produce. */
    function StagedSchema(): Schema
      reads this`landmarks2D, this`pdmParamsLocal, this`eyeLandmarks, this`auOccurences, this`auIntensities
    {
      SchemaOf(params, csvFilename, landmarks2D, pdmParamsLocal, eyeLandmarks, auOccurences, auIntensities)
    }

    /** The CSV row the staged frame produces under frame number `frame`. */
    function StagedRow(frame: nat): CsvRow
      reads this`timestamp, this`landmarkDetectionSuccess, this`landmarkDetectionConfidence
      reads this`landmarks2D, this`landmarks3D, this`pdmParamsLocal, this`pdmParamsGlobal, this`headPose
      reads this`gazeDirection0, this`gazeDirection1, this`gazeAngle, this`eyeLandmarks
      reads this`auIntensities, this`auOccurences
    {
      CsvRow(frame, timestamp, landmarkDetectionSuccess, landmarkDetectionConfidence,
        landmarks2D, landmarks3D, pdmParamsLocal, pdmParamsGlobal, headPose,
        gazeDirection0, gazeDirection1, gazeAngle, eyeLandmarks, auIntensities, auOccurences)
    }

    /** Derives the output names, opens the HOG output when it is wanted, and starts at frame 0
        with nothing staged. The CSV output and the video writer are not opened here. */
    constructor (outDirectory: string, inFilename: string, parameters: Parameters)
      ensures Valid()
      ensures params == parameters && recordRoot == outDirectory
      ensures filename == SessionTag(inFilename)
      ensures csvFilename == OutputPath(outDirectory, filename, ".csv")
      ensures videoFilename == if parameters.outputTrackedVideo then OutputPath(outDirectory, filename, ".avi") else ""
      ensures hogLog == if parameters.outputHOG then [HogOpen(OutputPath(outDirectory, filename, ".hog"))] else []
      ensures observationCount == 0 && csvLog == [] && videoLog == [] && !videoOpen && warnings == []
      ensures NothingStaged()
    {
      var tag := SessionTag(inFilename);
      var csvPath := OutputPath(outDirectory, tag, ".csv");
      var hogPath := OutputPath(outDirectory, tag, ".hog");
      var hogCalls: seq<HogCall> := [];
      if parameters.outputHOG {
        hogCalls := hogCalls + [HogOpen(hogPath)];
      }
      CsvStart([], 0, csvPath);
      HogStart(hogCalls, 0, parameters.outputHOG, hogPath);
      VideoStart([], [], false, 0, parameters.outputTrackedVideo, NO_IMAGE);
      params := parameters;
      filename := tag;
      recordRoot := outDirectory;
      csvFilename := csvPath;
      hogLog := hogCalls;
      videoFilename := if parameters.outputTrackedVideo then OutputPath(outDirectory, tag, ".avi") else "";
      observationCount := 0;
      timestamp, landmarkDetectionSuccess, landmarkDetectionConfidence := 0.0, false, 0.0;
      landmarks2D, landmarks3D, pdmParamsLocal := EMPTY_MATRIX, EMPTY_MATRIX, EMPTY_MATRIX;
      pdmParamsGlobal, headPose := ZERO_VEC6, ZERO_VEC6;
      auIntensities, auOccurences := [], [];
      gazeDirection0, gazeDirection1 := Point3(0.0, 0.0, 0.0), Point3(0.0, 0.0, 0.0);
      gazeAngle, eyeLandmarks := Point2(0.0, 0.0), [];
      visToOut := NO_IMAGE;
      csvLog, videoLog, videoOpen, warnings := [], [], false, [];
    }

    /** Stages the visualization image when video output is on; before that, opens the video
        writer at the image's size if it is not open yet, warning when the open throws. A
        failed open is tried again on the next call. */
    method SetObservationVisualization(visTrack: Image, outcome: OpenOutcome)
      requires Valid()
      modifies this`videoLog, this`videoOpen, this`warnings, this`visToOut
      ensures Valid()
      ensures var tries := params.outputTrackedVideo && !old(videoOpen);
        && videoLog == old(videoLog) + (if tries then [VideoOpen(videoFilename,
                                        params.outputCodec, params.outputFps, visTrack.FrameSize(), outcome)] else [])
        && videoOpen == (if tries then outcome == Opened else old(videoOpen))
        && warnings == old(warnings) + (if tries && outcome == Threw then [VideoWriterFailed(params.outputCodec)] else [])
      ensures visToOut == if params.outputTrackedVideo then visTrack else old(visToOut)
    {
      if params.outputTrackedVideo {
        if !videoOpen {
          var call := VideoOpen(videoFilename, params.outputCodec, params.outputFps, visTrack.FrameSize(), outcome);
          var calls := videoLog + [call];
          var printed := warnings;
          if outcome == Threw {
            printed := printed + [VideoWriterFailed(params.outputCodec)];
          }
          VideoOpenStep(videoLog, warnings, observationCount, visToOut, call, calls, printed, visTrack);
          videoLog, videoOpen, warnings := calls, outcome == Opened, printed;
        } else {
          VideoStageStep(videoLog, warnings, videoOpen, observationCount, visToOut, visTrack);
        }
        visToOut := visTrack;
      }
    }

    /** Writes the staged frame: counts it, writes the CSV header first if this is the first
        frame, writes one CSV row numbered with the new count, one HOG record if HOG output is
        on, and, if video output is on, hands the staged image to the video writer (warning
        first if it is empty) and clears it. The staged measurements stay as they were. */
    method WriteObservation()
      requires Valid()
      modifies this`observationCount, this`csvLog, this`hogLog, this`videoLog, this`warnings, this`visToOut
      ensures Valid()
      ensures observationCount == old(observationCount) + 1
      ensures csvLog == old(csvLog) + (if old(observationCount) == 0 then [CsvOpen(old(StagedSchema()))] else [])
                                    + [CsvWriteLine(old(StagedRow(observationCount + 1)))]
      ensures hogLog == old(hogLog) + (if params.outputHOG then [HogWrite] else [])
      ensures videoLog == old(videoLog) + (if params.outputTrackedVideo then [VideoWrite(old(visToOut))] else [])
      ensures warnings == old(warnings) + (if params.outputTrackedVideo && old(visToOut).Empty() then [FrameNotSet] else [])
      ensures visToOut == NO_IMAGE
    {
      observationCount := observationCount + 1;
      WriteCsvRecord();
      if params.outputHOG {
        hogLog := hogLog + [HogWrite];
      }
      HogWriteStep(old(hogLog), old(observationCount), params.outputHOG, hogLog);
      if params.outputTrackedVideo {
        WriteVideoFrame(old(observationCount));
      }
    }

    /** The CSV part of `WriteObservation`, once the count has gone up: the header, built from
        the staged frame, on the first frame only, then the row. */
    method WriteCsvRecord()
      requires observationCount > 0 && CsvInvariant(csvLog, observationCount - 1, csvFilename)
      modifies this`csvLog
      ensures CsvInvariant(csvLog, observationCount, csvFilename)
      ensures csvLog == old(csvLog) + (if observationCount == 1 then [CsvOpen(old(StagedSchema()))] else [])
                                    + [CsvWriteLine(old(StagedRow(observationCount)))]
    {
      if observationCount == 1 {
        var numFaceLandmarks := landmarks2D.rows / 2;
        var numEyeLandmarks := |eyeLandmarks|;
        var numModelModes := pdmParamsLocal.rows / 2;
        var auNamesClass := AuNames(auOccurences);
        var auNamesReg := AuNames(auIntensities);
        var header := Schema(
          csvFilename, params.output2DLandmarks, params.output3DLandmarks, params.outputPDMParams,
          params.outputPose, params.outputAUs, params.outputGaze,
          numFaceLandmarks, numModelModes, numEyeLandmarks, auNamesClass, auNamesReg);
        assert header == StagedSchema();
        SortedNamesSorted(Keys(auOccurences));
        SortedNamesSorted(Keys(auIntensities));
        csvLog := csvLog + [CsvOpen(header)];
      }
      csvLog := csvLog + [CsvWriteLine(StagedRow(observationCount))];
      CsvWriteStep(old(csvLog), observationCount - 1, csvFilename, StagedSchema(), StagedRow(observationCount), csvLog);
    }

    /** The video part of `WriteObservation`: a warning when the staged image is empty, the
        write (which happens all the same), then the staged image cleared. */
    method WriteVideoFrame(ghost written: nat)
      requires params.outputTrackedVideo
      requires VideoInvariant(videoLog, warnings, videoOpen, written, true, visToOut)
      modifies this`videoLog, this`warnings, this`visToOut
      ensures VideoInvariant(videoLog, warnings, videoOpen, written + 1, true, visToOut)
      ensures videoLog == old(videoLog) + [VideoWrite(old(visToOut))]
      ensures warnings == old(warnings) + (if old(visToOut).Empty() then [FrameNotSet] else [])
      ensures visToOut == NO_IMAGE
    {
      if visToOut.Empty() {
        warnings := warnings + [FrameNotSet];
      }
      videoLog := videoLog + [VideoWrite(visToOut)];
      visToOut := NO_IMAGE;
      VideoWriteStep(old(videoLog), old(warnings), videoOpen, written, old(visToOut), videoLog, warnings, visToOut);
    }

    /** Forwards the frame's HOG descriptor to the HOG output, whatever the parameters. */
    method SetObservationHOG(goodFrame: bool, hogDescriptor: Matrix, numCols: int, numRows: int, numChannels: int)
      requires Valid()
      modifies this`hogLog
      ensures Valid()
      ensures hogLog == old(hogLog) + [HogSet(HogObservation(goodFrame, hogDescriptor, numCols, numRows, numChannels))]
    {
      var call := HogSet(HogObservation(goodFrame, hogDescriptor, numCols, numRows, numChannels));
      HogOtherStep(hogLog, observationCount, params.outputHOG, call);
      hogLog := hogLog + [call];
    }

    method SetObservationTimestamp(timestamp: real)
      requires Valid()
      modifies this`timestamp
      ensures Valid()
      ensures this.timestamp == timestamp
    {
      this.timestamp := timestamp;
    }

    method SetObservationLandmarks(
      landmarks2D: Matrix, landmarks3D: Matrix, pdmParamsGlobal: Vec6, pdmParamsLocal: Matrix,
      confidence: real, success: bool)
      requires Valid()
      modifies this`landmarks2D, this`landmarks3D, this`pdmParamsGlobal, this`pdmParamsLocal,
        this`landmarkDetectionConfidence, this`landmarkDetectionSuccess
      ensures Valid()
      ensures this.landmarks2D == landmarks2D && this.landmarks3D == landmarks3D
      ensures this.pdmParamsGlobal == pdmParamsGlobal && this.pdmParamsLocal == pdmParamsLocal
      ensures landmarkDetectionConfidence == confidence && landmarkDetectionSuccess == success
    {
      this.landmarks2D := landmarks2D;
      this.landmarks3D := landmarks3D;
      this.pdmParamsGlobal := pdmParamsGlobal;
      this.pdmParamsLocal := pdmParamsLocal;
      this.landmarkDetectionConfidence := confidence;
      this.landmarkDetectionSuccess := success;
    }

    method SetObservationPose(pose: Vec6)
      requires Valid()
      modifies this`headPose
      ensures Valid()
      ensures headPose == pose
    {
      headPose := pose;
    }

    method SetObservationActionUnits(auIntensities: seq<ActionUnit>, auOccurences: seq<ActionUnit>)
      requires Valid()
      modifies this`auIntensities, this`auOccurences
      ensures Valid()
      ensures this.auIntensities == auIntensities && this.auOccurences == auOccurences
    {
      this.auIntensities := auIntensities;
      this.auOccurences := auOccurences;
    }

    method SetObservationGaze(gazeDirection0: Point3, gazeDirection1: Point3, gazeAngle: Point2, eyeLandmarks: seq<Point2>)
      requires Valid()
      modifies this`gazeDirection0, this`gazeDirection1, this`gazeAngle, this`eyeLandmarks
      ensures Valid()
      ensures this.gazeDirection0 == gazeDirection0 && this.gazeDirection1 == gazeDirection1
      ensures this.gazeAngle == gazeAngle && this.eyeLandmarks == eyeLandmarks
    {
      this.gazeDirection0 := gazeDirection0;
      this.gazeDirection1 := gazeDirection1;
      this.gazeAngle := gazeAngle;
      this.eyeLandmarks := eyeLandmarks;
    }

    /** Closes the HOG and CSV outputs and releases the video writer. Nothing marks the recorder
        closed: later writes still reach the outputs, and a later visualization reopens the
        video writer. */
    method Close()
      requires Valid()
      modifies this`hogLog, this`csvLog, this`videoLog, this`videoOpen
      ensures Valid()
      ensures hogLog == old(hogLog) + [HogClose]
      ensures csvLog == old(csvLog) + [CsvClose]
      ensures videoLog == old(videoLog) + [VideoRelease]
      ensures !videoOpen
    {
      HogOtherStep(hogLog, observationCount, params.outputHOG, HogClose);
      hogLog := hogLog + [HogClose];
      CsvCloseStep(csvLog, observationCount, csvFilename);
      csvLog := csvLog + [CsvClose];
      VideoReleaseStep(videoLog, warnings, videoOpen, observationCount, params.outputTrackedVideo, visToOut);
      videoLog := videoLog + [VideoRelease];
      videoOpen := false;
    }
  }
}
