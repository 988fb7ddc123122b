/**
 * `appendLog` (main.go:130-152) over an abstract file store: a map from path to file bytes.
 * Opening is the only file operation that may fail here; the line is given as the bytes the
 * logger formats.
 */
module LogRotation {

  newtype byte = x: int | 0 <= x < 256

  /** The byte `'\n'` that ends a line. */
  const NEWLINE: byte := 10

  /** A file with more lines than this is rotated. */
  const MAX_LINES: nat := 1000

  type Path = string

  /** The file system as seen by the logger. */
  type FileStore = map<Path, seq<byte>>

  /** A string of decimal digits, as `%d` writes a non-negative number. */
  ghost predicate IsDigits(s: string)
  {
    |s| >= 1 && forall i :: 0 <= i < |s| ==> '0' <= s[i] <= '9'
  }

  /** The number a string of decimal digits denotes, most significant digit first. */
  function DigitsValue(s: string): nat
    requires IsDigits(s)
  {
    var last := s[|s| - 1] as int - '0' as int;
    if |s| == 1 then last else DigitsValue(s[..|s| - 1]) * 10 + last
  }

  /** Decimal digits of a natural number, most significant first: they read back as the number. */
  function Digits(n: nat): (s: string)
    ensures IsDigits(s)
    ensures |s| > 1 ==> s[0] != '0'
    ensures DigitsValue(s) == n
  {
    var d := [('0' as int + n % 10) as char];
    if n < 10 then d
    else
      var s := Digits(n / 10) + d;
      assert s[..|s| - 1] == Digits(n / 10);
      s
  }

  /** The number a `%d` rendering denotes: an optional `-` followed by digits. */
  function DecimalValue(s: string): int
    requires IsDigits(s) || (|s| >= 2 && s[0] == '-' && IsDigits(s[1..]))
  {
    if s[0] == '-' then -(DigitsValue(s[1..]) as int) else DigitsValue(s)
  }

  /** An integer as `%d` prints it: it reads back as the same integer. */
  function Decimal(n: int): (s: string)
    ensures IsDigits(s) || (|s| >= 2 && s[0] == '-' && IsDigits(s[1..]))
    ensures s[0] == '-' <==> n < 0
    ensures s[0] == '-' ==> s[1] != '0'
    ensures s[0] != '-' && |s| > 1 ==> s[0] != '0'
    ensures DecimalValue(s) == n
  {
    if n < 0 then
      var s := "-" + Digits(-n);
      assert s[1..] == Digits(-n);
      s
    else Digits(n)
  }

  /** The name a rotated log gets: the path, a dot and the Unix timestamp of the rotation. */
  function RotatedPath(path: Path, ts: int): (p: Path)
    ensures p != path && |p| > |path| + 1
    ensures p[..|path|] == path && p[|path|] == '.'
    ensures p[|path| + 1..] == Decimal(ts)
  {
    path + "." + Decimal(ts)
  }

  /** Rotations of one path at different Unix times get different names. */
  lemma RotatedPathDistinct(path: Path, ts1: int, ts2: int)
    requires ts1 != ts2
    ensures RotatedPath(path, ts1) != RotatedPath(path, ts2)
  {
    assert RotatedPath(path, ts1)[|path| + 1..] == Decimal(ts1);
    assert RotatedPath(path, ts2)[|path| + 1..] == Decimal(ts2);
    assert DecimalValue(Decimal(ts1)) != DecimalValue(Decimal(ts2));
  }

  /** The number of lines in a file: its count of `'\n'` bytes. */
  function LineCount(content: seq<byte>): nat
  {
    multiset(content)[NEWLINE]
  }

  /** What reading `path` yields: the empty file when there is none. */
  function Content(files: FileStore, path: Path): seq<byte>
  {
    if path in files then files[path] else []
  }

  /** `os.Rename(from, to)`: the file moves, replacing whatever `to` held. */
  function Rename(files: FileStore, from: Path, to: Path): (r: FileStore)
    requires from in files && from != to
    ensures from !in r && to in r && r[to] == files[from]
    ensures forall p :: p != from && p != to ==> (p in r <==> p in files)
    ensures forall p :: p != from && p != to && p in files ==> r[p] == files[p]
  {
    (files - {from})[to := files[from]]
  }

  /** The counting loop of `appendLog`: one pass over the file, counting `'\n'` bytes. */
  method CountLines(content: seq<byte>) returns (lines: nat)
    ensures lines == LineCount(content)
  {
    lines := 0;
    for i := 0 to |content|
      invariant lines == multiset(content[..i])[NEWLINE]
    {
      assert content[..i + 1] == content[..i] + [content[i]];
      if content[i] == NEWLINE {
        lines := lines + 1;
      }
    }
    assert content[..|content|] == content;
  }

  /**
   * Reference definition of one `appendLog` call. When the open fails nothing changes.
   * Otherwise the line is appended to the file (created empty if absent), and when the
   * result holds more than `MAX_LINES` lines it is renamed to `RotatedPath(path, ts)`.
   */
  function AppendStep(files: FileStore, path: Path, line: seq<byte>, openOk: bool, ts: int): (r: FileStore)
    ensures !openOk ==> r == files
    ensures openOk ==> (path in r <==> LineCount(Content(files, path) + line) <= MAX_LINES)
    ensures openOk && path in r ==> r[path] == Content(files, path) + line
    ensures openOk && path !in r ==> RotatedPath(path, ts) in r && r[RotatedPath(path, ts)] == Content(files, path) + line
    ensures openOk ==> LineCount(Content(r, path)) <= MAX_LINES
    ensures forall p :: p != path && (path in r || p != RotatedPath(path, ts)) ==> (p in r <==> p in files)
    ensures forall p :: p != path && (path in r || p != RotatedPath(path, ts)) && p in files ==> r[p] == files[p]
  {
    if !openOk then files
    else
      var written := files[path := Content(files, path) + line];
      if LineCount(written[path]) > MAX_LINES then Rename(written, path, RotatedPath(path, ts))
      else written
  }

  /** How an `appendLog` call ended. */
  datatype Appended = OpenFailed | Kept(lines: nat) | Rotated(lines: nat, to: Path)

  /** The log directory's files, changed in place by the logger. */
  class LogStore {
    var files: FileStore

    constructor (files: FileStore)
      ensures this.files == files
    {
      this.files := files;
    }

    /** `appendLog(path, line)`; `openOk` says whether `os.OpenFile` succeeds and `ts` is the clock's Unix time. */
    method AppendLog(path: Path, line: seq<byte>, openOk: bool, ts: int) returns (result: Appended)
      modifies this
      ensures files == AppendStep(old(files), path, line, openOk, ts)
      ensures result.OpenFailed? <==> !openOk
      ensures !result.OpenFailed? ==> result.lines == LineCount(Content(old(files), path) + line)
      ensures result.Rotated? <==> openOk && result.lines > MAX_LINES
      ensures result.Rotated? ==> result.to == RotatedPath(path, ts)
    {
      if !openOk {
        return OpenFailed;
      }
      files := files[path := Content(files, path) + line];
      var content := files[path];
      var lines := CountLines(content);
      if lines > MAX_LINES {
        var newPath := RotatedPath(path, ts);
        files := Rename(files, path, newPath);
        result := Rotated(lines, newPath);
      } else {
        result := Kept(lines);
      }
    }
  }

  /** One hourly `appendLog` call: the line, whether the open succeeds, the clock's Unix time. */
  datatype Tick = Tick(line: seq<byte>, openOk: bool, ts: int)

  /** The file store after a series of `appendLog` calls on one path. */
  function Replay(files: FileStore, path: Path, ticks: seq<Tick>): FileStore
    decreases |ticks|
  {
    if ticks == [] then files
    else Replay(AppendStep(files, path, ticks[0].line, ticks[0].openOk, ticks[0].ts), path, ticks[1..])
  }

  /** Starting from a file of at most `MAX_LINES` lines, the file at `path` never exceeds that bound, whatever is logged. */
  lemma {:induction false} ReplayKeepsBound(files: FileStore, path: Path, ticks: seq<Tick>)
    requires LineCount(Content(files, path)) <= MAX_LINES
    ensures LineCount(Content(Replay(files, path, ticks), path)) <= MAX_LINES
    decreases |ticks|
  {
    if ticks != [] {
      ReplayKeepsBound(AppendStep(files, path, ticks[0].line, ticks[0].openOk, ticks[0].ts), path, ticks[1..]);
    }
  }

  /**
   * With one-line entries and a file within the bound, a rotation happens exactly when the
   * file held `MAX_LINES` lines, and the rotated file holds exactly `MAX_LINES + 1` lines.
   */
  lemma RotationMovesFullFile(files: FileStore, path: Path, line: seq<byte>, ts: int)
    requires LineCount(Content(files, path)) <= MAX_LINES && LineCount(line) == 1
    ensures path !in AppendStep(files, path, line, true, ts) <==> LineCount(Content(files, path)) == MAX_LINES
    ensures path !in AppendStep(files, path, line, true, ts) ==>
      LineCount(AppendStep(files, path, line, true, ts)[RotatedPath(path, ts)]) == MAX_LINES + 1
  {
    assert multiset(Content(files, path) + line) == multiset(Content(files, path)) + multiset(line);
  }

  /**
   * A full file plus one line is rotated; the next line starts a fresh file at the original
   * path holding just that line, and the rotated file keeps all the earlier content.
   */
  lemma FreshFileAfterRotation(files: FileStore, path: Path, first: seq<byte>, ts1: int, second: seq<byte>, ts2: int)
    requires LineCount(Content(files, path)) == MAX_LINES
    requires LineCount(first) == 1 && LineCount(second) == 1
    ensures var after := AppendStep(AppendStep(files, path, first, true, ts1), path, second, true, ts2);
      && path in after && after[path] == second
      && RotatedPath(path, ts1) in after && after[RotatedPath(path, ts1)] == Content(files, path) + first
  {
    var rotated := AppendStep(files, path, first, true, ts1);
    assert multiset(Content(files, path) + first) == multiset(Content(files, path)) + multiset(first);
    assert path !in rotated;
    assert Content(rotated, path) + second == second;
  }
}
