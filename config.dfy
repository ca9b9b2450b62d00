/** Reading `RESULT_FOLDER_PATH` from the lines of `config.txt`, and the
    folder the merge step then writes into. */
module Config {
  import opened Options
  import opened Text

  const ResultFolderKey := "RESULT_FOLDER_PATH"

  /** The default folder of the second scan, relative to the working directory. */
  const RelativeDefault := "Result"

  /** A candidate line cut at its first `=` (`line.split('=', 1)`); neither part stripped yet. */
  datatype Setting = Setting(key: string, value: string)

  /** A line takes part when, once stripped, it is non-empty, does not start
      with `#` and holds an `=`; it is cut at its first `=`, so the value may
      itself hold `=`. */
  function ParseLine(raw: string): Option<Setting> {
    var line := Strip(raw);
    if line != [] && line[0] != '#' && '=' in line then
      var i := IndexOfFrom(line, '=', 0);
      Some(Setting(line[..i], line[i + 1..]))
    else
      None
  }

  /** Which lines take part, and how a line is cut: the key is everything
      before the first `=`, the value everything after it. */
  lemma ParseLineCuts(raw: string)
    ensures ParseLine(raw).Some? <==> Strip(raw) != [] && Strip(raw)[0] != '#' && '=' in Strip(raw)
    ensures ParseLine(raw).Some? ==>
      var s := ParseLine(raw).value;
      Strip(raw) == s.key + "=" + s.value && '=' !in s.key
  {
    var line := Strip(raw);
    if line != [] && line[0] != '#' && '=' in line {
      var i := IndexOfFrom(line, '=', 0);
      assert ParseLine(raw) == Some(Setting(line[..i], line[i + 1..]));
      CutAt(line, i);
    } else {
      assert ParseLine(raw) == None;
    }
  }

  /** The line sets `RESULT_FOLDER_PATH` (its key matches once stripped). */
  predicate IsResultFolderLine(raw: string) {
    var s := ParseLine(raw);
    s.Some? && Strip(s.value.key) == ResultFolderKey
  }

  /** The stripped value a `RESULT_FOLDER_PATH` line sets. */
  function SettingValue(raw: string): string
    requires IsResultFolderLine(raw)
  {
    Strip(ParseLine(raw).value.value)
  }

  /** The scan of `get_result_folder_from_config`: the value of the first
      `RESULT_FOLDER_PATH` line (the loop breaks there), or `None`. */
  function ConfiguredValue(lines: seq<string>): Option<string> {
    if lines == [] then None
    else if IsResultFolderLine(lines[0]) then Some(SettingValue(lines[0]))
    else
      ConfiguredValue(lines[1..])
  }

  /** The scan stops at the first `RESULT_FOLDER_PATH` line and returns its value. */
  lemma FirstSettingWins(lines: seq<string>, i: nat)
    requires i < |lines| && IsResultFolderLine(lines[i])
    requires forall j | 0 <= j < i :: !IsResultFolderLine(lines[j])
    ensures ConfiguredValue(lines) == Some(SettingValue(lines[i]))
  {
    ScanSkips(lines, 0, i);
    assert lines[0..] == lines;
  }

  /** From line `k` on, the scan passes over the lines before `i` that set nothing. */
  lemma {:induction false} ScanSkips(lines: seq<string>, k: nat, i: nat)
    requires k <= i < |lines| && IsResultFolderLine(lines[i])
    requires forall j | k <= j < i :: !IsResultFolderLine(lines[j])
    ensures ConfiguredValue(lines[k..]) == Some(SettingValue(lines[i]))
    decreases i - k
  {
    var rest := lines[k..];
    assert rest[0] == lines[k];
    if k < i {
      assert rest[1..] == lines[k + 1..];
      ScanSkips(lines, k + 1, i);
    }
  }

  /** The scan finds nothing exactly when no line sets `RESULT_FOLDER_PATH`. */
  lemma {:induction false} NoSettingFound(lines: seq<string>)
    ensures ConfiguredValue(lines) == None <==> forall i | 0 <= i < |lines| :: !IsResultFolderLine(lines[i])
    decreases |lines|
  {
    if lines != [] {
      var tail := lines[1..];
      NoSettingFound(tail);
      forall i | 0 < i < |lines| ensures lines[i] == tail[i - 1] {
      }
    }
  }

  /** Where the merged workbook is written. */
  datatype Folder = Configured(path: string) | DefaultResultFolder

  /** `get_result_folder_from_config`: `config` is the content of `config.txt`
      as lines, or `None` when the file does not exist. A missing file, a
      missing setting and an empty value all give the default `Result` folder
      under the project root. */
  function ResultFolder(config: Option<seq<string>>): (f: Folder)
    ensures f.Configured? ==> config.Some? && f.path != "" && ConfiguredValue(config.value) == Some(f.path)
    ensures config.Some? && ConfiguredValue(config.value).Some? && ConfiguredValue(config.value).value != "" ==> f.Configured?
  {
    match config
    case None => DefaultResultFolder
    case Some(lines) =>
      match ConfiguredValue(lines)
      case Some(v) => if v != "" then Configured(v) else DefaultResultFolder
      case None => DefaultResultFolder
  }

  /** The second scan, before the parent-row step: same parsing, but the
      default is the relative folder `Result` and an empty value is kept. */
  function ParentInputFolder(config: Option<seq<string>>): (path: string)
    ensures config.None? ==> path == RelativeDefault
    ensures config.Some? ==> path == match ConfiguredValue(config.value) case Some(v) => v case None => RelativeDefault
  {
    if config.Some? && ConfiguredValue(config.value).Some? then ConfiguredValue(config.value).value else RelativeDefault
  }

  /** A line `key=v` whose key holds no `=` is cut right after the key. */
  lemma SettingLineCut(key: string, v: string)
    requires key != [] && !IsSpace(key[0]) && key[0] != '#' && '=' !in key
    requires v == [] || !IsSpace(v[|v| - 1])
    ensures ParseLine(key + "=" + v) == Some(Setting(key, v))
  {
    var line := key + "=" + v;
    assert line[|key|] == '=';
    assert forall j | 0 <= j < |key| :: line[j] == key[j];
    assert IndexOfFrom(line, '=', 0) == |key|;
    assert line[..|key|] == key && line[|key| + 1..] == v;
    assert line[0] == key[0] && line[|line| - 1] == (if v == [] then '=' else v[|v| - 1]);
    StripTrimmed(line);
    assert '=' in line;
  }

  /** The line `RESULT_FOLDER_PATH=v` sets the folder to `v`. */
  lemma ResultFolderLineOf(v: string)
    requires v == [] || (!IsSpace(v[0]) && !IsSpace(v[|v| - 1]))
    ensures IsResultFolderLine(ResultFolderKey + "=" + v)
    ensures SettingValue(ResultFolderKey + "=" + v) == v
  {
    KeyLineCut(v);
    KeyIsTrimmed();
    ResultFolderLineIs(ResultFolderKey + "=" + v, ResultFolderKey, v);
    StripTrimmed(v);
  }

  /** A line cut into a key that strips to `RESULT_FOLDER_PATH` and a value sets that value, stripped. */
  lemma ResultFolderLineIs(line: string, key: string, v: string)
    requires ParseLine(line) == Some(Setting(key, v)) && Strip(key) == ResultFolderKey
    ensures IsResultFolderLine(line) && SettingValue(line) == Strip(v)
  {
  }

  lemma KeyLineCut(v: string)
    requires v == [] || !IsSpace(v[|v| - 1])
    ensures ParseLine(ResultFolderKey + "=" + v) == Some(Setting(ResultFolderKey, v))
  {
    KeyHasNoEquals();
    KeyStart();
    SettingLineCut(ResultFolderKey, v);
  }

  lemma KeyHasNoEquals()
    ensures '=' !in ResultFolderKey
  {
  }

  /** The key starts with neither `#` nor whitespace. */
  lemma KeyStart()
    ensures ResultFolderKey[0] != '#' && !IsSpace(ResultFolderKey[0])
  {
  }

  /** The key has no surrounding whitespace. */
  lemma KeyIsTrimmed()
    ensures Strip(ResultFolderKey) == ResultFolderKey
  {
    StripTrimmed(ResultFolderKey);
  }

  /** Writing `RESULT_FOLDER_PATH=v` and reading it back gives `v`, even when
      `v` holds `=` signs, as long as `v` has no surrounding whitespace. */
  lemma SettingRoundTrip(v: string, rest: seq<string>)
    requires v == [] || (!IsSpace(v[0]) && !IsSpace(v[|v| - 1]))
    ensures ConfiguredValue([ResultFolderKey + "=" + v] + rest) == Some(v)
  {
    var lines := [ResultFolderKey + "=" + v] + rest;
    ResultFolderLineOf(v);
    FirstSettingWins(lines, 0);
  }

  /** The two scans agree on every non-empty setting; they part only on the
      default and on an empty value. */
  lemma ScansAgree(config: Option<seq<string>>)
    ensures ResultFolder(config).Configured? ==> ParentInputFolder(config) == ResultFolder(config).path
    ensures ResultFolder(config) == DefaultResultFolder ==> ParentInputFolder(config) in {RelativeDefault, ""}
  {
  }

  /** The second scan also takes the first `RESULT_FOLDER_PATH` line, with
      its value stripped, even when that value is empty. */
  lemma SecondScanFirstSetting(lines: seq<string>, i: nat)
    requires i < |lines| && IsResultFolderLine(lines[i])
    requires forall j | 0 <= j < i :: !IsResultFolderLine(lines[j])
    ensures ParentInputFolder(Some(lines)) == SettingValue(lines[i])
  {
    FirstSettingWins(lines, i);
  }

  /** Without the file, or without a `RESULT_FOLDER_PATH` line, the second
      scan gives the relative folder `Result`. */
  lemma SecondScanDefault(config: Option<seq<string>>)
    ensures config.None? ==> ParentInputFolder(config) == RelativeDefault
    ensures config.Some? && (forall i | 0 <= i < |config.value| :: !IsResultFolderLine(config.value[i])) ==>
              ParentInputFolder(config) == RelativeDefault
  {
    if config.Some? {
      NoSettingFound(config.value);
    }
  }

  /** A first line `RESULT_FOLDER_PATH=` leaves the second scan with the empty
      folder, while the first scan falls back to the default. */
  lemma EmptySettingKeptBySecondScan(rest: seq<string>)
    ensures ParentInputFolder(Some([ResultFolderKey + "="] + rest)) == ""
    ensures ResultFolder(Some([ResultFolderKey + "="] + rest)) == DefaultResultFolder
  {
    assert ResultFolderKey + "=" + "" == ResultFolderKey + "=";
    SettingRoundTrip("", rest);
  }
}
