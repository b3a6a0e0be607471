/** The configuration-file parser `getInput` (application/src/main.cpp:209-249): `video:`
    lines become numbered streams, `intruder:` lines requested labels, anything else is
    ignored; afterwards every stream gets one counter per requested label. */
module Config {
  import opened Stream

  /** `int delim = str.find(':')`: the first colon's index, or -1 when there is none. */
  function FindColon(s: string): (r: int)
    ensures -1 <= r < |s|
    ensures r >= 0 ==> s[r] == ':'
    ensures forall j :: 0 <= j < |s| && (r < 0 || j < r) ==> s[j] != ':'
  {
    if s == [] then -1
    else if s[0] == ':' then 0
    else
      var r := FindColon(s[1..]);
      if r == -1 then -1 else r + 1
  }

  /** `str.substr(0, delim)`: with no colon -1 becomes npos, so the key is the whole line. */
  function Key(s: string): (r: string)
    ensures r <= s
    ensures forall j :: 0 <= j < |r| ==> r[j] != ':'
    ensures |r| < |s| ==> s[|r|] == ':'
  {
    var delim := FindColon(s);
    if delim < 0 then s else s[..delim]
  }

  /** `str.substr(delim + 2)`: everything after the colon and the one character after it;
      None when that start lies past the end of the line, where `substr` throws
      `out_of_range`. With no colon the start is 1. */
  function Value(s: string): (r: Option<string>)
    ensures r.None? <==> |s| < FindColon(s) + 2
  {
    var start := FindColon(s) + 2;
    if start <= |s| then Some(s[start..]) else None
  }

  /** A line with a value is its key, the colon, one skipped character and the value; a
      colon-free line with a value is one skipped character and the value. */
  lemma ValueLayout(s: string)
    requires Value(s).Some?
    ensures FindColon(s) >= 0 ==> s == Key(s) + ":" + [s[|Key(s)| + 1]] + Value(s).value
    ensures FindColon(s) < 0 ==> s == [s[0]] + Value(s).value
  {
    var d := FindColon(s);
    if d >= 0 {
      assert s == s[..d] + [s[d]] + [s[d + 1]] + s[d + 2..];
    } else {
      assert s == [s[0]] + s[1..];
    }
  }

  /** What one configuration line contributes. */
  datatype ConfigLine =
    | VideoLine(path: string)
    | IntruderLine(name: string)
    | Ignored
    | OutOfRange

  function ParseLine(s: string): ConfigLine
  {
    var key := Key(s);
    if key == "video" then
      match Value(s)
      case Some(path) => VideoLine(path)
      case None => OutOfRange
    else if key == "intruder" then
      match Value(s)
      case Some(name) => IntruderLine(name)
      case None => OutOfRange
    else Ignored
  }

  /** The path a line contributes to the streams, if any. */
  function PathOf(entry: ConfigLine): seq<string>
  {
    if entry.VideoLine? then [entry.path] else []
  }

  /** The label a line contributes to the requested labels, if any. */
  function NameOf(entry: ConfigLine): seq<string>
  {
    if entry.IntruderLine? then [entry.name] else []
  }

  /** What every line contributes, in file order. */
  function ParseAll(lines: seq<string>): (r: seq<ConfigLine>)
    ensures |r| == |lines|
  {
    if lines == [] then [] else ParseAll(lines[..|lines| - 1]) + [ParseLine(lines[|lines| - 1])]
  }

  /** The paths of the `video:` entries, in order. */
  function Paths(entries: seq<ConfigLine>): seq<string>
  {
    if entries == [] then [] else Paths(entries[..|entries| - 1]) + PathOf(entries[|entries| - 1])
  }

  /** The values of the `intruder:` entries, in order. */
  function Names(entries: seq<ConfigLine>): seq<string>
  {
    if entries == [] then [] else Names(entries[..|entries| - 1]) + NameOf(entries[|entries| - 1])
  }

  /** The `video:` paths of the file, in file order. */
  function VideoPaths(lines: seq<string>): seq<string>
  {
    Paths(ParseAll(lines))
  }

  /** The `intruder:` values of the file, in file order. */
  function Requested(lines: seq<string>): seq<string>
  {
    Names(ParseAll(lines))
  }

  /** Every line can be parsed without `substr` throwing. */
  predicate WellFormed(lines: seq<string>)
  {
    forall k :: 0 <= k < |lines| ==> !ParseLine(lines[k]).OutOfRange?
  }

  lemma {:induction false} ParseAllAt(lines: seq<string>, k: nat)
    requires k < |lines|
    ensures ParseAll(lines)[k] == ParseLine(lines[k])
  {
    if k < |lines| - 1 {
      ParseAllAt(lines[..|lines| - 1], k);
    }
  }

  lemma EntriesStep(entries: seq<ConfigLine>, entry: ConfigLine)
    ensures Paths(entries + [entry]) == Paths(entries) + PathOf(entry)
    ensures Names(entries + [entry]) == Names(entries) + NameOf(entry)
  {
    assert (entries + [entry])[..|entries|] == entries;
  }

  /** The line `key: value` as a configuration file spells an option. */
  function OptionLine(key: string, value: string): string
  {
    key + ": " + value
  }

  /** A colon-free key, a colon, then `rest`: the key reads back, and the value is `rest`
      without its first character, or absent when `rest` is empty. */
  lemma ColonSplit(key: string, rest: string)
    requires forall j :: 0 <= j < |key| ==> key[j] != ':'
    ensures Key(key + ":" + rest) == key
    ensures Value(key + ":" + rest) == if rest == [] then None else Some(rest[1..])
  {
    var s := key + ":" + rest;
    assert s[|key|] == ':' && s[..|key|] == key;
    assert FindColon(s) == |key|;
    if rest != [] {
      assert s[|key| + 2..] == rest[1..];
    }
  }

  /** Behind a colon-free key and its colon, the next character is skipped. */
  lemma SkipAfterColon(key: string, c: char, value: string)
    requires forall j :: 0 <= j < |key| ==> key[j] != ':'
    ensures Key(key + ":" + [c] + value) == key
    ensures Value(key + ":" + [c] + value) == Some(value)
  {
    ColonSplit(key, [c] + value);
    assert key + ":" + [c] + value == key + ":" + ([c] + value);
    assert ([c] + value)[1..] == value;
  }

  /** A colon-free key written as `key: value` reads back as that key and value. */
  lemma OptionLineRoundTrip(key: string, value: string)
    requires forall j :: 0 <= j < |key| ==> key[j] != ':'
    ensures Key(OptionLine(key, value)) == key
    ensures Value(OptionLine(key, value)) == Some(value)
  {
    SkipAfterColon(key, ' ', value);
    assert OptionLine(key, value) == key + ":" + [' '] + value;
  }

  /** The two recognised options parse to their values; any other colon-free key is ignored. */
  lemma OptionLineParses(key: string, value: string)
    requires forall j :: 0 <= j < |key| ==> key[j] != ':'
    ensures key == "video" ==> ParseLine(OptionLine(key, value)) == VideoLine(value)
    ensures key == "intruder" ==> ParseLine(OptionLine(key, value)) == IntruderLine(value)
    ensures key != "video" && key != "intruder" ==> ParseLine(OptionLine(key, value)).Ignored?
  {
    OptionLineRoundTrip(key, value);
  }

  /** Without a colon `find` gives -1: the key is the whole line and the value starts at
      index 1, so `video` alone opens the path `ideo`. */
  lemma NoColonDropsFirstCharacter()
    ensures ParseLine("video") == VideoLine("ideo")
  {
    assert forall j :: 0 <= j < |"video"| ==> "video"[j] != ':';
    assert FindColon("video") == -1;
    assert "video"[1..] == "ideo";
  }

  /** A recognised key with its colon last makes `substr` start past the end and throw. */
  lemma TrailingColonThrows(key: string)
    requires key == "video" || key == "intruder"
    ensures ParseLine(key + ":") == OutOfRange
  {
    ColonSplit(key, "");
    assert key + ":" + "" == key + ":";
  }

  /** The character right after the colon is skipped whatever it is. */
  lemma CharacterAfterColonSkipped(c: char, value: string)
    ensures ParseLine("video:" + [c] + value) == VideoLine(value)
    ensures ParseLine("intruder:" + [c] + value) == IntruderLine(value)
  {
    SkipAfterColon("video", c, value);
    assert "video:" == "video" + ":";
    SkipAfterColon("intruder", c, value);
    assert "intruder:" == "intruder" + ":";
  }

  lemma {:induction false} ParseAllAppend(a: seq<string>, b: seq<string>)
    ensures ParseAll(a + b) == ParseAll(a) + ParseAll(b)
    decreases |b|
  {
    if b != [] {
      var b' := b[..|b| - 1];
      assert (a + b)[..|a + b| - 1] == a + b';
      assert (a + b)[|a + b| - 1] == b[|b| - 1];
      ParseAllAppend(a, b');
    } else {
      assert a + b == a;
    }
  }

  lemma {:induction false} EntriesAppend(x: seq<ConfigLine>, y: seq<ConfigLine>)
    ensures Paths(x + y) == Paths(x) + Paths(y)
    ensures Names(x + y) == Names(x) + Names(y)
    decreases |y|
  {
    if y != [] {
      var y' := y[..|y| - 1];
      assert (x + y)[..|x + y| - 1] == x + y';
      assert (x + y)[|x + y| - 1] == y[|y| - 1];
      EntriesAppend(x, y');
    } else {
      assert x + y == x;
    }
  }

  /** Splitting a file splits its outcome: the streams and the requested labels of two
      concatenated files are those of the first followed by those of the second. */
  lemma ConcatenatedFiles(a: seq<string>, b: seq<string>)
    ensures VideoPaths(a + b) == VideoPaths(a) + VideoPaths(b)
    ensures Requested(a + b) == Requested(a) + Requested(b)
  {
    ParseAllAppend(a, b);
    EntriesAppend(ParseAll(a), ParseAll(b));
  }

  /** Two concatenated files are well formed exactly when both are. */
  lemma ConcatenatedWellFormed(a: seq<string>, b: seq<string>)
    ensures WellFormed(a + b) <==> WellFormed(a) && WellFormed(b)
  {
    if WellFormed(a) && WellFormed(b) {
      forall k | 0 <= k < |a + b|
        ensures !ParseLine((a + b)[k]).OutOfRange?
      {
        if k < |a| {
          assert (a + b)[k] == a[k];
        } else {
          assert (a + b)[k] == b[k - |a|];
        }
      }
    }
    if WellFormed(a + b) {
      forall k | 0 <= k < |a|
        ensures !ParseLine(a[k]).OutOfRange?
      {
        assert (a + b)[k] == a[k];
      }
      forall k | 0 <= k < |b|
        ensures !ParseLine(b[k]).OutOfRange?
      {
        assert (a + b)[|a| + k] == b[k];
      }
    }
  }

  /** A line that is not a recognised option adds no stream, no label and no failure. */
  lemma UnrecognisedLineIgnored(lines: seq<string>, line: string)
    requires Key(line) != "video" && Key(line) != "intruder"
    ensures VideoPaths(lines + [line]) == VideoPaths(lines)
    ensures Requested(lines + [line]) == Requested(lines)
    ensures WellFormed(lines + [line]) <==> WellFormed(lines)
  {
    ConcatenatedFiles(lines, [line]);
    ConcatenatedWellFormed(lines, [line]);
    assert ParseAll([line]) == [Ignored] by {
      assert [line][..0] == [];
    }
    assert Paths([Ignored]) == [] && Names([Ignored]) == [] by {
      assert [Ignored][..0] == [];
    }
    assert WellFormed([line]);
  }

  /** A one-character path that is a digit names a camera. */
  predicate IsCameraId(path: string)
  {
    |path| == 1 && '0' <= path[0] <= '9'
  }

  /** The camera ids are exactly the ten one-digit strings. */
  lemma CameraIds(path: string)
    ensures IsCameraId(path) <==> path in {"0", "1", "2", "3", "4", "5", "6", "7", "8", "9"}
  {
    if IsCameraId(path) {
      var d := path[0] as int - '0' as int;
      assert path == [path[0]];
      assert 0 <= d <= 9;
      assert path[0] == '0' + d as char;
    }
  }

  /** `sprintf(camName, "Cam %d", cams)`. */
  function CamName(n: int): (r: string)
    ensures |r| > 4 && r[..4] == "Cam "
  {
    "Cam " + IntToString(n)
  }

  /** Different stream numbers give different camera names. */
  lemma CamNameInjective(a: int, b: int)
    requires CamName(a) == CamName(b)
    ensures a == b
  {
    assert IntToString(a) == CamName(a)[4..];
    assert IntToString(b) == CamName(b)[4..];
    IntToStringInjective(a, b);
  }

  /** Stream `n` (counting from 1) opened for `path`: a camera for a digit, whatever the
      digit, which always opens camera 0; otherwise the file. */
  ghost predicate StreamFor(cap: VideoCap, path: string, n: int)
    reads cap
  {
    && cap.camName == CamName(n)
    && cap.videoName == VideoName(n)
    && if IsCameraId(path) then cap.source == Camera(0) && cap.inputVideo == "stream" && cap.isCam
       else cap.source == File(path) && cap.inputVideo == path && !cap.isCam
  }

  /** The streams opened so far, each for its path, numbered from 1, none configured yet. */
  ghost predicate Opened(streams: seq<VideoCap>, paths: seq<string>)
    reads set j | 0 <= j < |streams| :: streams[j]
  {
    && |streams| == |paths|
    && forall j :: 0 <= j < |streams| ==> StreamFor(streams[j], paths[j], j + 1) && streams[j].Unconfigured()
  }

  lemma OpenedExtend(streams: seq<VideoCap>, paths: seq<string>, cap: VideoCap, path: string)
    requires Opened(streams, paths) && StreamFor(cap, path, |streams| + 1) && cap.Unconfigured()
    ensures Opened(streams + [cap], paths + [path])
  {
    var s', p' := streams + [cap], paths + [path];
    forall j | 0 <= j < |s'|
      ensures StreamFor(s'[j], p'[j], j + 1) && s'[j].Unconfigured()
    {
      if j < |streams| {
        assert s'[j] == streams[j] && p'[j] == paths[j];
      }
    }
  }

  /** The `VideoCap` constructor call for stream `n` and its path. */
  method OpenStream(path: string, camName: string, n: int) returns (cap: VideoCap)
    requires camName == CamName(n)
    ensures fresh(cap) && StreamFor(cap, path, n) && cap.Unconfigured() && cap.Valid()
  {
    if |path| == 1 && '0' <= path[0] <= '9' {
      cap := new VideoCap.FromCamera(0, camName, n);
    } else {
      cap := new VideoCap.FromPath(path, camName, n);
    }
  }

  /** The stream objects of a list. */
  function Objects(streams: seq<VideoCap>): set<VideoCap>
  {
    set j | 0 <= j < |streams| :: streams[j]
  }

  lemma ObjectsAppend(streams: seq<VideoCap>, cap: VideoCap)
    ensures Objects(streams + [cap]) == Objects(streams) + {cap}
  {
    var more := streams + [cap];
    assert forall j :: 0 <= j < |streams| ==> more[j] == streams[j];
    assert more[|streams|] == cap;
  }

  lemma DistinctAppend(streams: seq<VideoCap>, cap: VideoCap)
    requires Distinct(streams) && cap !in Objects(streams)
    ensures Distinct(streams + [cap])
  {
    var more := streams + [cap];
    forall i, j | 0 <= i < j < |more|
      ensures more[i] != more[j]
    {
      if j == |streams| {
        assert more[i] == streams[i] && streams[i] in Objects(streams);
      }
    }
  }

  /** `streams.push_back(VideoCap(...))` for the next `video:` line. */
  method AddStream(streams: seq<VideoCap>, ghost paths: seq<string>, path: string, cams: int)
    returns (more: seq<VideoCap>)
    requires Opened(streams, paths) && Distinct(streams) && cams == |streams| + 1
    ensures |more| == |streams| + 1 && more[..|streams|] == streams
    ensures Objects(more) == Objects(streams) + {more[|streams|]} && fresh(more[|streams|])
    ensures Opened(more, paths + [path]) && Distinct(more)
  {
    var cap := OpenStream(path, CamName(cams), cams);
    OpenedExtend(streams, paths, cap, path);
    ObjectsAppend(streams, cap);
    DistinctAppend(streams, cap);
    more := streams + [cap];
    assert more[..|streams|] == streams;
  }

  /** The closing loop of getInput: `init(n)` on every stream. */
  method InitAll(streams: seq<VideoCap>, n: nat)
    requires Distinct(streams)
    requires forall j :: 0 <= j < |streams| ==> streams[j].Unconfigured()
    modifies Objects(streams)
    ensures forall j :: 0 <= j < |streams| ==>
      && streams[j].Initialized(n) && streams[j].Valid() && streams[j].isCam == old(streams[j].isCam)
      && streams[j].frameCount == 0 && streams[j].loopFrames == 0 && streams[j].events == []
  {
    var i := 0;
    while i < |streams|
      invariant 0 <= i <= |streams|
      invariant forall j :: 0 <= j < i ==>
        && streams[j].Initialized(n) && streams[j].Valid() && streams[j].isCam == old(streams[j].isCam)
        && streams[j].frameCount == 0 && streams[j].loopFrames == 0 && streams[j].events == []
      invariant forall j :: i <= j < |streams| ==>
        streams[j].Unconfigured() && streams[j].isCam == old(streams[j].isCam)
    {
      streams[i].Init(n);
      i := i + 1;
    }
  }

  /** The analysis of line k inside getInput's loop: find the colon, compare the key, cut
      the value out with `substr`. */
  method ClassifyLine(lines: seq<string>, k: nat) returns (entry: ConfigLine)
    requires k < |lines|
    ensures entry == ParseAll(lines)[k]
  {
    ParseAllAt(lines, k);
    var str := lines[k];
    var delim := FindColon(str);
    var key := if delim < 0 then str else str[..delim];
    if key == "video" || key == "intruder" {
      if delim + 2 > |str| {
        entry := OutOfRange;
      } else if key == "video" {
        entry := VideoLine(str[delim + 2..]);
      } else {
        entry := IntruderLine(str[delim + 2..]);
      }
    } else {
      entry := Ignored;
    }
  }

  /** No entry is one whose `substr` throws. */
  ghost predicate Clean(entries: seq<ConfigLine>)
  {
    forall j :: 0 <= j < |entries| ==> !entries[j].OutOfRange?
  }

  lemma CleanIffWellFormed(lines: seq<string>)
    ensures Clean(ParseAll(lines)) <==> WellFormed(lines)
  {
    forall j | 0 <= j < |lines|
      ensures ParseAll(lines)[j] == ParseLine(lines[j])
    {
      ParseAllAt(lines, j);
    }
  }

  /** What getInput's loop has built after the entries so far: the paths and the requested
      labels of those entries, and one distinct, unconfigured stream per path. */
  ghost predicate Scanned(entries: seq<ConfigLine>, streams: seq<VideoCap>, paths: seq<string>,
                          usedLabels: seq<string>)
    reads set j | 0 <= j < |streams| :: streams[j]
  {
    && Clean(entries)
    && paths == Paths(entries) && usedLabels == Names(entries)
    && Opened(streams, paths) && Distinct(streams)
  }

  lemma CleanStep(entries: seq<ConfigLine>, entry: ConfigLine)
    requires Clean(entries) && !entry.OutOfRange?
    ensures Clean(entries + [entry])
  {
  }

  /** What one entry that did not throw does inside getInput's loop: a `video:` entry
      counts a camera and opens its stream, an `intruder:` entry requests its label. */
  method ApplyEntry(entry: ConfigLine, ghost entries: seq<ConfigLine>, cams: int,
                    streams: seq<VideoCap>, ghost paths: seq<string>, usedLabels: seq<string>)
    returns (cams': int, streams': seq<VideoCap>, ghost paths': seq<string>, usedLabels': seq<string>)
    requires !entry.OutOfRange? && cams == |streams|
    requires Scanned(entries, streams, paths, usedLabels)
    ensures cams' == |streams'|
    ensures Scanned(entries + [entry], streams', paths', usedLabels')
    ensures fresh(Objects(streams') - Objects(streams))
  {
    EntriesStep(entries, entry);
    CleanStep(entries, entry);
    cams', streams', paths', usedLabels' := cams, streams, paths, usedLabels;
    match entry {
      case VideoLine(path) =>
        cams' := cams + 1;
        streams' := AddStream(streams, paths, path, cams');
        paths' := paths + [path];
      case IntruderLine(name) =>
        usedLabels' := usedLabels + [name];
      case Ignored =>
    }
  }

  lemma PrefixStep<T>(all: seq<T>, k: nat)
    requires k < |all|
    ensures all[..k + 1] == all[..k] + [all[k]]
  {
  }

  /** One turn of getInput's loop: line k is classified and, unless its `substr` throws,
      applied to what the earlier lines built. */
  method ScanLine(lines: seq<string>, k: nat, cams: int, streams: seq<VideoCap>,
                  ghost paths: seq<string>, usedLabels: seq<string>)
    returns (ok: bool, cams': int, streams': seq<VideoCap>, ghost paths': seq<string>,
             usedLabels': seq<string>)
    requires k < |lines| && cams == |streams|
    requires Scanned(ParseAll(lines)[..k], streams, paths, usedLabels)
    ensures ok <==> !ParseAll(lines)[k].OutOfRange?
    ensures ok ==> cams' == |streams'| && Scanned(ParseAll(lines)[..k + 1], streams', paths', usedLabels')
    ensures ok ==> fresh(Objects(streams') - Objects(streams))
  {
    var entry := ClassifyLine(lines, k);
    cams', streams', paths', usedLabels' := cams, streams, paths, usedLabels;
    ok := !entry.OutOfRange?;
    if ok {
      PrefixStep(ParseAll(lines), k);
      cams', streams', paths', usedLabels' := ApplyEntry(entry, ParseAll(lines)[..k], cams, streams, paths, usedLabels);
    }
  }

  /** The `while (getline(...))` loop of getInput over the lines' entries: streams for the
      `video:` entries, requested labels from the `intruder:` entries; `ok` is false at the
      first entry whose `substr` throws. */
  method ScanLines(lines: seq<string>)
    returns (ok: bool, streams: seq<VideoCap>, usedLabels: seq<string>, ghost paths: seq<string>)
    ensures ok <==> Clean(ParseAll(lines))
    ensures ok ==> Scanned(ParseAll(lines), streams, paths, usedLabels) && fresh(Objects(streams))
  {
    streams, usedLabels, paths := [], [], [];
    var cams := 0;
    var k := 0;
    while k < |lines|
      invariant 0 <= k <= |lines| && cams == |streams|
      invariant Scanned(ParseAll(lines)[..k], streams, paths, usedLabels)
      invariant fresh(Objects(streams))
    {
      ok, cams, streams, paths, usedLabels := ScanLine(lines, k, cams, streams, paths, usedLabels);
      if !ok {
        return;
      }
      k := k + 1;
    }
    assert ParseAll(lines)[..k] == ParseAll(lines);
    ok := true;
  }

  /** getInput on the configuration file's lines. `ok` is false when some `video` or
      `intruder` line ends right after its colon, where `substr` throws; otherwise there is
      one stream per `video:` line, named "Cam 1", "Cam 2", ... in file order, the
      requested labels are the `intruder:` values in file order, and every stream has been
      given one zeroed counter per requested label. */
  method GetInput(lines: seq<string>) returns (ok: bool, streams: seq<VideoCap>, usedLabels: seq<string>)
    ensures ok <==> WellFormed(lines)
    ensures ok ==> usedLabels == Requested(lines)
    ensures ok ==> |streams| == |VideoPaths(lines)|
    ensures ok ==> forall k :: 0 <= k < |streams| ==>
      && StreamFor(streams[k], VideoPaths(lines)[k], k + 1)
      && streams[k].Initialized(|usedLabels|)
      && streams[k].Valid()
      && streams[k].frameCount == 0 && streams[k].loopFrames == 0 && streams[k].events == []
    ensures ok ==> Distinct(streams)
  {
    ghost var paths;
    ok, streams, usedLabels, paths := ScanLines(lines);
    CleanIffWellFormed(lines);
    if !ok {
      return;
    }
    assert forall j :: 0 <= j < |streams| ==> StreamFor(streams[j], paths[j], j + 1) && streams[j].Unconfigured();
    InitAll(streams, |usedLabels|);
  }
}
