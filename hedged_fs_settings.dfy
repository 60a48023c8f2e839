/** The extension settings of src/hedged_fs_settings.cpp: one delay setting per
    operation, each registered with that operation's default and a setter that writes
    the operation's delay into the shared entry, plus the maximum-count setting. */
module FsSettings {
  import opened Common
  import opened RequestConfig
  import opened FsEntry

  const MAX_COUNT_SETTING: string := "hedged_fs_max_hedged_request_count"

  /** The name of the setting that configures `op`'s delay. */
  function SettingName(op: HedgedRequestOperation): string
  {
    match op
    case OpenFile => "hedged_fs_open_file_delay_ms"
    case Glob => "hedged_fs_glob_delay_ms"
    case FileExists => "hedged_fs_file_exists_delay_ms"
    case DirectoryExists => "hedged_fs_directory_exists_delay_ms"
    case GetFileSize => "hedged_fs_get_file_size_delay_ms"
    case GetLastModifiedTime => "hedged_fs_get_last_modified_time_delay_ms"
    case GetFileType => "hedged_fs_get_file_type_delay_ms"
    case GetVersionTag => "hedged_fs_get_version_tag_delay_ms"
    case ListFiles => "hedged_fs_list_files_delay_ms"
  }

  /** The operation a setting name configures, if it is a delay setting. */
  function SettingOperation(name: string): (r: Option<HedgedRequestOperation>)
    ensures r.Some? ==> SettingName(r.value) == name
  {
    if name == SettingName(OpenFile) then Some(OpenFile)
    else if name == SettingName(Glob) then Some(Glob)
    else if name == SettingName(FileExists) then Some(FileExists)
    else if name == SettingName(DirectoryExists) then Some(DirectoryExists)
    else if name == SettingName(GetFileSize) then Some(GetFileSize)
    else if name == SettingName(GetLastModifiedTime) then Some(GetLastModifiedTime)
    else if name == SettingName(GetFileType) then Some(GetFileType)
    else if name == SettingName(GetVersionTag) then Some(GetVersionTag)
    else if name == SettingName(ListFiles) then Some(ListFiles)
    else None
  }

  /** Every operation's setting name leads back to that operation: the nine delay
      settings configure nine different operations. */
  lemma SettingRoundTrip(op: HedgedRequestOperation)
    ensures SettingOperation(SettingName(op)) == Some(op)
  {
    match op
    case OpenFile => OpenFileRoundTrip();
    case Glob => GlobRoundTrip();
    case FileExists => FileExistsRoundTrip();
    case DirectoryExists => DirectoryExistsRoundTrip();
    case GetFileSize => GetFileSizeRoundTrip();
    case GetLastModifiedTime => GetLastModifiedTimeRoundTrip();
    case GetFileType => GetFileTypeRoundTrip();
    case GetVersionTag => GetVersionTagRoundTrip();
    case ListFiles => ListFilesRoundTrip();
  }

  // One lemma per operation keeps each obligation's string comparisons small.
  lemma OpenFileRoundTrip() ensures SettingOperation(SettingName(OpenFile)) == Some(OpenFile) {}
  lemma GlobRoundTrip() ensures SettingOperation(SettingName(Glob)) == Some(Glob) {}
  lemma FileExistsRoundTrip() ensures SettingOperation(SettingName(FileExists)) == Some(FileExists) {}
  lemma DirectoryExistsRoundTrip() ensures SettingOperation(SettingName(DirectoryExists)) == Some(DirectoryExists) {}
  lemma GetFileSizeRoundTrip() ensures SettingOperation(SettingName(GetFileSize)) == Some(GetFileSize) {}
  lemma GetLastModifiedTimeRoundTrip() ensures SettingOperation(SettingName(GetLastModifiedTime)) == Some(GetLastModifiedTime) {}
  lemma GetFileTypeRoundTrip() ensures SettingOperation(SettingName(GetFileType)) == Some(GetFileType) {}
  lemma GetVersionTagRoundTrip() ensures SettingOperation(SettingName(GetVersionTag)) == Some(GetVersionTag) {}
  lemma ListFilesRoundTrip() ensures SettingOperation(SettingName(ListFiles)) == Some(ListFiles) {}

  /** The maximum-count setting is not a delay setting. */
  lemma MaxCountIsNoDelaySetting()
    ensures SettingOperation(MAX_COUNT_SETTING) == None
  {
  }

  /** What a registered option does when set. */
  datatype Setter = DelaySetter(op: HedgedRequestOperation) | MaxCountSetter

  /** A registered extension option of type UBIGINT: its name, its default (absent
      where the default is a constant this model does not have), and its setter. */
  datatype ExtensionOption = ExtensionOption(name: string, defaultValue: Option<uint64>, setter: Setter)

  /** The option registered for `op`'s delay: the default comes from the default
      table. */
  function DelayOption(op: HedgedRequestOperation): (o: ExtensionOption)
    ensures o.name == SettingName(op) && o.setter == DelaySetter(op)
    ensures o.defaultValue.Some? && o.defaultValue.value as int == DefaultDelay(op) as int
  {
    ExtensionOption(SettingName(op), Some(DefaultDelay(op) as int as uint64), DelaySetter(op))
  }

  /** The options the extension registers, in order: the nine delay options in enum
      order, then the maximum count. */
  function RegisteredOptions(): (opts: seq<ExtensionOption>)
    ensures |opts| == COUNT + 1
    ensures forall i :: 0 <= i < COUNT ==> opts[i] == DelayOption(FromIndex(i))
    ensures opts[COUNT] == ExtensionOption(MAX_COUNT_SETTING, None, MaxCountSetter)
  {
    seq(COUNT, i requires 0 <= i < COUNT => DelayOption(FromIndex(i)))
      + [ExtensionOption(MAX_COUNT_SETTING, None, MaxCountSetter)]
  }

  /** Ten options with ten different names; each delay option's setter updates the
      operation its own name configures, and its default is that operation's default
      delay. */
  lemma RegisteredOptionsWellFormed()
    ensures |RegisteredOptions()| == 10
    ensures forall i, j :: 0 <= i < j < |RegisteredOptions()| ==> RegisteredOptions()[i].name != RegisteredOptions()[j].name
    ensures forall o :: o in RegisteredOptions() && o.setter.DelaySetter? ==>
              SettingOperation(o.name) == Some(o.setter.op)
              && o.defaultValue.Some? && o.defaultValue.value as int == DefaultDelay(o.setter.op) as int
  {
    var opts := RegisteredOptions();
    forall i, j | 0 <= i < j < |opts| ensures opts[i].name != opts[j].name {
      if j < COUNT {
        SettingRoundTrip(FromIndex(i));
        SettingRoundTrip(FromIndex(j));
      } else {
        SettingRoundTrip(FromIndex(i));
        MaxCountIsNoDelaySetting();
      }
    }
    forall o | o in opts && o.setter.DelaySetter?
      ensures SettingOperation(o.name) == Some(o.setter.op)
    {
      SettingRoundTrip(o.setter.op);
    }
  }

  /** `UpdateConfigDelay`: look up the shared entry (passed in here) and set the
      operation's delay to `value_ms` milliseconds. The setting name and scope it
      receives are not used. */
  method UpdateConfigDelay(entry: HedgedRequestFsEntry, setting_name: string, op: HedgedRequestOperation, value_ms: int64)
    requires entry.Valid()
    modifies entry
    ensures entry.Valid()
    ensures entry.config == UpdateDelay(old(entry.config), op, value_ms)
    ensures entry.pending_requests == old(entry.pending_requests)
  {
    entry.UpdateConfig(op, value_ms);
  }

  /** The setter of `op`'s delay setting: the value is read as `uint64_t` and passed on
      as `int64_t` milliseconds, so a value above INT64_MAX arrives negative. */
  method SetHedgingDelay(entry: HedgedRequestFsEntry, op: HedgedRequestOperation, value: uint64)
    requires entry.Valid()
    modifies entry
    ensures entry.Valid()
    ensures entry.config == UpdateDelay(old(entry.config), op, ToInt64(value))
    ensures value as int <= INT64_MAX ==> entry.config.Delay(op) as int == value as int
    ensures value as int > INT64_MAX ==> entry.config.Delay(op) < 0
  {
    UpdateConfigDelay(entry, SettingName(op), op, ToInt64(value));
  }
}
