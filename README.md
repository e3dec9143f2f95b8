# RecorderOpenFace, modelled in Dafny

OpenFace's `RecorderOpenFace` records facial-behaviour measurements one video frame at a
time. A caller stages one frame's measurements with the `SetObservation*` setters:

- timestamp;
- landmarks and shape parameters;
- head pose;
- action units;
- gaze;
- HOG descriptor;
- visualization image.

`WriteObservation` then counts the frame and sends it to three outputs:

- **CSV output.** Always written. On the first frame it is opened with a header computed from the staged frame. The header holds the landmark and mode counts and the sorted action-unit names.
- **HOG output.** Written only when HOG output is on; it was opened in the constructor.
- **Tracked video.** Written only when video output is on. The video writer is opened lazily by the first `SetObservationVisualization`.

`Close` closes all three outputs.

The model is a Dafny class, `Recorder.RecorderOpenFace`, with the C++ fields:

- the frame count;
- the staged values;
- whether the video writer is open.

Each output is a field holding the sequence of calls it has received, so the model states what the recorder asks of its outputs, not what they write. The warnings the recorder prints are a sequence of `Warning` values. The result of `cv::VideoWriter::open` is an `OpenOutcome` argument, because it depends on the platform's codecs: opened, returned without opening, or threw.

The class invariant `Valid` ties the count to the outputs:

- **CSV output:**
  - exactly one row per frame, numbered 1, 2, …, n;
  - exactly one header once a frame has been written, none before, and never a row ahead of it;
  - a header for the recorder's own CSV path, with sorted name lists.
- **HOG output:**
  - opened once and one record per frame when HOG output is on;
  - neither when it is off.
- **Video output:**
  - one frame per written frame when video output is on;
  - one "frame not set" warning per empty frame;
  - one "could not open" warning per open that threw;
  - the writer reports open exactly when its last open or release was a successful open;
  - opens happen only while the writer is closed;
  - with video off, the writer is never opened and nothing is staged.

Every public method keeps `Valid`, and each one states its exact new state. The two private helpers, `WriteCsvRecord` and `WriteVideoFrame`, each carry one output's invariant across the count change instead.

The output-name derivation follows Boost.Filesystem (version 3) on POSIX paths:

- `filename()`, `extension()`, `replace_extension()` and `operator/` are functions in module `Paths`.
- The lemmas there state what a recorded session's files are called.

The session tag strips the input's directory and last extension. Each output then replaces the tag's own extension. So an input `clip.mp4` gives `clip.csv`, while `a.b.mp4` gives the tag `a.b` and the file `a.csv`.

The action-unit names are pushed onto a vector and sorted with `std::sort`. This is modelled as an array fill loop followed by an in-place insertion sort. The result is proved sorted in the byte-wise lexicographic order of `std::string`, a permutation of the staged names, and therefore equal to the specification function `NameSort.SortedNames`.

Module `Sessions` runs whole sessions against the class and proves what the outputs hold at the end:

- a CSV-only session;
- a frame written without a visualization;
- an open that throws and is retried;
- a write after `Close`.

Three behaviours of the code are modelled as written. Each differs from what a redesign of the recorder might promise:

- A frame written while no visualization is staged is still handed to the video writer, as an empty image, and a warning is printed. The frame is not dropped.
- A failed open is tried again on the next `SetObservationVisualization`. The writer is not given up for the session.
- `Close` has no closed-state guard. A write after it still reaches every enabled output, and a second `Close` closes each output again.

## Model

| member | source | states |
|---|---|---|
| Recorder.RecorderOpenFace.constructor | lib/local/Recorder/src/RecorderOpenFace.cpp:74-104 | `Valid` holds. The tag is the input with its directory and extension stripped. The CSV path is the output directory joined with the tag renamed to `.csv`. The video path is the same with `.avi` when video output is on, and empty otherwise. The HOG output got exactly one open, with the `.hog` path, when HOG output is on, and nothing otherwise. The count is 0, the CSV and video outputs have received nothing, and the writer is closed. The members that C++ default-constructs hold their defaults (`NothingStaged`): the visualization image, the matrices and the lists are empty, and the pose, shape and gaze vectors are zero. |
| Recorder.RecorderOpenFace.SetObservationVisualization | lib/local/Recorder/src/RecorderOpenFace.cpp:106-129 | With video output on and the writer closed, exactly one open is issued, with the video path, codec, fps and the image's size. The writer is open afterwards exactly when that open succeeded. One warning naming the codec is added exactly when it threw. With the writer already open, or video output off, no call is made. The image is staged only when video output is on. `Valid` is kept, so a failed open is retried on the next call. |
| Recorder.RecorderOpenFace.WriteObservation | lib/local/Recorder/src/RecorderOpenFace.cpp:132-184 | The count goes up by one. The CSV output gets a header built from the staged frame only on the first frame, then exactly one row numbered with the new count and holding the staged values. The HOG output gets one record exactly when HOG output is on. With video output on, the writer gets the staged image, a warning is added exactly when the image is empty, and the staged image is cleared. `Valid` is kept. |
| Recorder.RecorderOpenFace.WriteCsvRecord | lib/local/Recorder/src/RecorderOpenFace.cpp:136-167 | On frame 1 the header is opened, then the row is written. On later frames only the row is written. The CSV invariant moves from n - 1 to n frames. |
| Recorder.RecorderOpenFace.WriteVideoFrame | lib/local/Recorder/src/RecorderOpenFace.cpp:174-183 | Exactly one write of the staged image, even an empty one. A "frame not set" warning is added exactly when the image is empty. The staged image is cleared afterwards. The video invariant gains one frame. |
| Recorder.RecorderOpenFace.SetObservationHOG | lib/local/Recorder/src/RecorderOpenFace.cpp:187-190 | The HOG output receives exactly this observation, whatever the parameters. The frame count and the other outputs are unchanged. |
| Recorder.RecorderOpenFace.SetObservationTimestamp | lib/local/Recorder/src/RecorderOpenFace.cpp:192-195 | Only the staged timestamp changes, to the argument. `Valid` is kept. |
| Recorder.RecorderOpenFace.SetObservationLandmarks | lib/local/Recorder/src/RecorderOpenFace.cpp:197-207 | Only the six landmark fields change, each to its argument. `Valid` is kept. |
| Recorder.RecorderOpenFace.SetObservationPose | lib/local/Recorder/src/RecorderOpenFace.cpp:209-212 | Only the head pose changes. `Valid` is kept. |
| Recorder.RecorderOpenFace.SetObservationActionUnits | lib/local/Recorder/src/RecorderOpenFace.cpp:214-219 | Only the two action-unit lists change, each to its argument. `Valid` is kept. |
| Recorder.RecorderOpenFace.SetObservationGaze | lib/local/Recorder/src/RecorderOpenFace.cpp:221-228 | Only the four gaze fields change, each to its argument. `Valid` is kept. |
| Recorder.RecorderOpenFace.Close | lib/local/Recorder/src/RecorderOpenFace.cpp:236-241 | Exactly one close each to the HOG and CSV outputs and one release to the video writer, which is closed afterwards. No closed state is recorded, and `Valid` is kept, so later calls still work. |
| Recorder.SchemaOf | lib/local/Recorder/src/RecorderOpenFace.cpp:141-159 | The header's face-landmark count is the 2D landmark rows halved, rounded down, and its model-mode count is the local-parameter rows halved, rounded down. |
| Recorder.SchemaOfHeader | lib/local/Recorder/src/RecorderOpenFace.cpp:138-163 | The header names the recorder's CSV path and carries all six of the parameters' output switches: 2D and 3D landmarks, shape parameters, pose, action units and gaze. The face-landmark count is half the 2D landmark rows, the model-mode count is half the local-parameter rows, both rounded down, and the eye-landmark count is the number of eye landmarks. Both name lists are sorted and are permutations of the staged names. |
| Recorder.SchemaIgnoresStagingOrder | lib/local/Recorder/src/RecorderOpenFace.cpp:145-159 | Two stagings with the same names, in any order, give the same header. |
| Recorder.AuNames | lib/local/Recorder/src/RecorderOpenFace.cpp:145-159 | The push-back loop followed by the sort gives exactly the staged names in sorted order. |
| NameSort.SortInPlace | lib/local/Recorder/src/RecorderOpenFace.cpp:151 | The array ends sorted and is a permutation of its old contents. |
| NameSort.SortedNamesSorted | lib/local/Recorder/src/RecorderOpenFace.cpp:151 | The reference sort yields a sorted sequence. |
| NameSort.SortedNamesPermutes | lib/local/Recorder/src/RecorderOpenFace.cpp:151 | The reference sort yields a permutation of its input. |
| NameSort.SortedUnique | lib/local/Recorder/src/RecorderOpenFace.cpp:151 | Two sorted permutations of each other are equal, so any correct sort gives the same name list. |
| LexOrder.LexLe | lib/local/Recorder/src/RecorderOpenFace.cpp:151 | The `std::string` order `std::sort` uses puts a string no later than any string it is a prefix of. |
| LexOrder.LexLeTotal | lib/local/Recorder/src/RecorderOpenFace.cpp:151 | The string order used by the sort relates every pair of names. |
| LexOrder.LexLeTransitive | lib/local/Recorder/src/RecorderOpenFace.cpp:151 | The string order used by the sort is transitive. |
| LexOrder.LexLeAntisymmetric | lib/local/Recorder/src/RecorderOpenFace.cpp:151 | Names that are ordered both ways are equal. |
| Paths.FileName | lib/local/Recorder/src/RecorderOpenFace.cpp:78 | `filename()`: never longer than the path, and non-empty for a non-empty path. `FileNameHasNoSeparator` and `FileNameOfSeparators` state the separator-only case. |
| Paths.Extension | lib/local/Recorder/src/RecorderOpenFace.cpp:85 | `extension()`: never longer than the path. |
| Paths.ReplaceExtension | lib/local/Recorder/src/RecorderOpenFace.cpp:78-97 | `replace_extension(e)`: the length is the path's, minus its extension, plus `e`, plus one for the '.' added when `e` does not start with one. |
| Paths.ReplaceExtensionParts | lib/local/Recorder/src/RecorderOpenFace.cpp:78-97 | `replace_extension(e)` keeps the path up to its old extension and ends in `e`. |
| Paths.Join | lib/local/Recorder/src/RecorderOpenFace.cpp:85 | `operator/`: the result starts with the directory and ends with the joined name. |
| Paths.SessionTag | lib/local/Recorder/src/RecorderOpenFace.cpp:78 | The tag is never longer than the input name. |
| Paths.OutputPath | lib/local/Recorder/src/RecorderOpenFace.cpp:85-97 | Every output path starts with the output directory. |
| Paths.FileNameOfSeparators | lib/local/Recorder/src/RecorderOpenFace.cpp:78 | The file name of "/" is "/", of "//" is "//", and of "///" is "/". |
| Paths.RootInputTag | lib/local/Recorder/src/RecorderOpenFace.cpp:78-85 | The input "/" gives the tag "/", and the CSV path is then the directory followed by "/.csv". |
| Paths.SessionTagOf | lib/local/Recorder/src/RecorderOpenFace.cpp:78 | The input `dir/base.ext` gives the tag `base`. The directory and the last extension go, and earlier dots stay. |
| Paths.StripExtensionAfterDir | lib/local/Recorder/src/RecorderOpenFace.cpp:78 | `replace_extension("")` on `dir/base.ext` leaves `dir/base`. |
| Paths.FileNameHasNoSeparator | lib/local/Recorder/src/RecorderOpenFace.cpp:78 | A file name contains a separator exactly when the path is made of separators only. Any other path has a file name without one. |
| Paths.ExtensionShape | lib/local/Recorder/src/RecorderOpenFace.cpp:85 | An extension is empty, or a '.' followed by neither another '.' nor a separator. |
| Paths.ExtensionIsSuffix | lib/local/Recorder/src/RecorderOpenFace.cpp:85 | An extension is the tail of the path, so removing it leaves a prefix. |
| Paths.OutputNameOf | lib/local/Recorder/src/RecorderOpenFace.cpp:85 | Renaming the tag to `.csv`, `.hog` or `.avi` gives the tag without its own extension followed by the new one. The result is a bare file name whose extension is the new one. A tag without a '.' simply gets the extension appended. |
| Paths.OutputFileName | lib/local/Recorder/src/RecorderOpenFace.cpp:85-97 | Read back from the joined path, an output's file name is the renamed tag, and its extension is the sink's. |
| Paths.JoinFileName | lib/local/Recorder/src/RecorderOpenFace.cpp:85 | Joining a bare name onto the output directory gives a path whose file name is that name. |
| Paths.InputToOutputName | lib/local/Recorder/src/RecorderOpenFace.cpp:78-85 | From input `dir/base.ext`, an output's file name is `base` with its own extension replaced by the sink's. That is `base` plus the extension when `base` has no '.'. |
| Paths.DottedTagLosesLastPart | lib/local/Recorder/src/RecorderOpenFace.cpp:85 | A tag `stem.mid` loses `.mid` too when it is renamed, so `a.b.mp4` records to `a.csv`. |
| Sinks.CsvStart | lib/local/Recorder/src/RecorderOpenFace.cpp:102 | At count 0, a CSV output that has received nothing satisfies its invariant, whatever its path. |
| Sinks.CsvWriteStep | lib/local/Recorder/src/RecorderOpenFace.cpp:161-167 | A header on the first frame only, then a row numbered n + 1, takes the CSV invariant from n to n + 1 frames. |
| Sinks.CsvCloseStep | lib/local/Recorder/src/RecorderOpenFace.cpp:239 | Closing keeps the rows, the headers and their order. |
| Sinks.HogStart | lib/local/Recorder/src/RecorderOpenFace.cpp:88-92 | One open when HOG output is on, and none when it is off, starts the HOG invariant at 0 records. |
| Sinks.HogWriteStep | lib/local/Recorder/src/RecorderOpenFace.cpp:169-172 | One record per frame when on and none when off keeps records equal to the count, or 0. |
| Sinks.HogOtherStep | lib/local/Recorder/src/RecorderOpenFace.cpp:187-190 | A HOG call that neither opens nor writes, such as a staged observation or a close, keeps the HOG invariant. |
| Sinks.VideoStart | lib/local/Recorder/src/RecorderOpenFace.cpp:95-102 | A writer that has received nothing, is closed and has nothing staged satisfies the video invariant at count 0. |
| Sinks.VideoOpenStep | lib/local/Recorder/src/RecorderOpenFace.cpp:111-122 | An open of the closed writer keeps the video invariant. The writer is open afterwards exactly when the open succeeded, and a warning is added exactly when it threw. |
| Sinks.VideoOpenAppend | lib/local/Recorder/src/RecorderOpenFace.cpp:111-122 | An open adds no frame, adds one to the thrown opens exactly when it threw, leaves the writer open exactly when it succeeded, and keeps opens-only-while-closed exactly when the writer was closed. |
| Sinks.WriterOpenIsLastOpen | lib/local/Recorder/src/RecorderOpenFace.cpp:111 | `WriterOpen`, the model of `isOpened()` computed from the calls the writer received, holds exactly when some open succeeded and the writer has received only frames since. |
| Sinks.Image.Empty | lib/local/Recorder/src/RecorderOpenFace.cpp:176 | `cv::Mat::empty()`: an image is empty exactly when its row count times its column count is 0, as OpenCV's `total() == 0`. |
| Sinks.Image.FrameSize | lib/local/Recorder/src/RecorderOpenFace.cpp:117 | `cv::Mat::size()`: the area is 0 exactly when the image is empty. |
| Sinks.VideoStageStep | lib/local/Recorder/src/RecorderOpenFace.cpp:125 | With video output on, staging any image keeps the video invariant. |
| Sinks.VideoWriteStep | lib/local/Recorder/src/RecorderOpenFace.cpp:174-183 | Writing the staged image, with a warning exactly when it is empty, takes the video invariant from n to n + 1 frames. |
| Sinks.VideoReleaseStep | lib/local/Recorder/src/RecorderOpenFace.cpp:240 | A release keeps the video invariant and leaves the writer closed. |
| Sessions.Start | lib/local/Recorder/src/RecorderOpenFace.cpp:74-104 | A new recorder is at frame 0 with every invariant in place, nothing sent to the CSV and video outputs, the writer closed, nothing staged for the video, and no HOG call when HOG output is off. |
| Sessions.TabularSession | lib/local/Recorder/src/RecorderOpenFace.cpp:132-172 | With only CSV output, three writes give one header and three rows numbered 1, 2, 3. The HOG and video outputs receive nothing. |
| Sessions.NumberedRows | lib/local/Recorder/src/RecorderOpenFace.cpp:165 | Rows numbered from one carry their position plus one. |
| Sessions.UnsetFrameSession | lib/local/Recorder/src/RecorderOpenFace.cpp:174-183 | A write with nothing staged hands exactly one empty image to the writer and prints exactly one "frame not set" warning. |
| Sessions.RetriedOpenSession | lib/local/Recorder/src/RecorderOpenFace.cpp:106-129 | An open that throws, then a second visualization, gives two opens, exactly one warning naming the codec, and an open writer. |
| Sessions.WriteAfterCloseSession | lib/local/Recorder/src/RecorderOpenFace.cpp:236-241 | Nothing stops a write after `Close`. The CSV output has one row at the close and two after the next write, and the HOG output gets its second record too. |

## Left out

- `CreateDirectory` (lines 56-71, called at 82) is not modelled. Its result does not affect what the recorder does next.
- The destructor (lines 230-233) only calls `Close`. Dafny has no destructors, so a client ends a session by calling `Close`.
- Console output is modelled only as `Warning` values, in order. The message text is not modelled.
- Warnings and video calls are kept in two separate sequences. So the model does not say that the "frame not set" warning comes before the write of the empty image, or that the "could not open" warning comes after the failed open.
- `cv::Mat` assignment shares pixel data. The image staged at line 125 and the matrices stored at lines 200, 201 and 203 alias the caller's buffers, so a later change by the caller shows through. Images and matrices are values in the model, so this sharing is not modelled.
- `CV_FOURCC` packing of the codec string is not modelled. The codec is passed on as a string. What happens for a codec shorter than four characters is not modelled either.
- Whether the video writer opens is an argument, `OpenOutcome`, because it depends on the installed codecs and the filesystem.
- A write to a writer that never opened is still recorded as a call. OpenCV ignores it; the model does not say so.
- The open at line 113 recomputes the `.avi` path into a local. The model uses the stored video path, which is the same string whenever video output is on, the only case in which the open runs.
- The contents of matrices, images and descriptors are carried but not inspected. The model reads only row counts, sizes and emptiness.
- Doubles are `real`, so rounding is not modelled. Counts are unbounded, so `int` overflow of `observation_count` is not modelled.
- The C++ leaves three scalars uninitialised until a setter runs: the timestamp, the detection confidence and the success flag. The model starts them at 0.0, 0.0 and false, and the constructor promises nothing about them. The other staged members are default-constructed, and the constructor states their values.
- `RecorderCSV`, `RecorderHOG` and `cv::VideoWriter` are not part of this model beyond the calls they receive. The CSV text and the HOG binary layout are not modelled.
- Paths are modelled for POSIX separators only. Windows paths and Boost's root names of the form "//net/..." are not modelled; so an input "//a.mp4" gives the tag "a" here, where Boost gives "//a". The separator-only names "/" and "//" are.
- The aligned-image recording at line 100 is a TODO with no code.
