/** The settings service (AppSource/Palladium.Settings/SettingsService.cs): settings pages are
    installed under their GUID, existing values are read back from the settings file, and
    the write command stores one entry per installed GUID. The view models, the views and
    the serializers are represented by what the service records about them. */
module Settings {
  import opened Wrappers
  import opened Guids
  import opened SettingsDocument

  /** A settings page as `InstallImplementation` receives it: its GUID, the name of its data
      type, its text, and whether existing settings should be read. */
  datatype Installation = Installation(guid: Guid, typeName: string, text: string, tryRead: bool)

  /** The serializers (GUID to type name), the order the dictionary enumerates them in, the
      settings views, the GUIDs whose view model got its subject, the values read back into
      subjects, the value of the write command's `canExecute` subject, the log, and the two
      files. */
  datatype ServiceState = ServiceState(
    types: map<Guid, string>, order: seq<Guid>, views: map<Guid, string>, handedOver: seq<Guid>,
    emitted: seq<(Guid, nat)>, canExecute: bool, log: seq<LogEntry>,
    file: Option<FileContent>, backup: Option<FileContent>)

  function Initial(file: Option<FileContent>, backup: Option<FileContent>): ServiceState {
    ServiceState(map[], [], map[], [], [], true, [], file, backup)
  }

  /** The enumeration order lists each serializer once, and every view has a serializer. */
  predicate Valid(s: ServiceState) {
    Distinct(s.order) && (forall g :: g in s.order <==> g in s.types) && s.views.Keys <= s.types.Keys
  }

  /** `InstallImplementation`: a GUID already installed only logs a warning; otherwise the
      serializer is added, existing settings are read if asked, and a failed read logs a
      warning and stops before the view model and the view are set up. */
  function Install(s: ServiceState, inst: Installation, opens: nat -> bool, retryRecovers: bool,
                   codec: GuidCodec, decode: seq<nat> -> Decoded): (r: ServiceState)
    ensures r.types.Keys == s.types.Keys + {inst.guid}
    ensures r.file == s.file && r.backup == s.backup && r.canExecute == s.canExecute
    ensures inst.guid in s.types ==> r.views == s.views && r.handedOver == s.handedOver
  {
    var g := inst.guid;
    if g in s.types then s.(log := s.log + [AlreadyInstalled(g)])
    else
      var types, order := s.types[g := inst.typeName], s.order + [g];
      var read := if inst.tryRead then Deserialize(s.file, g, opens, retryRecovers, codec, decode) else Success(None);
      if read.Failure? then
        ServiceState(types, order, s.views, s.handedOver, s.emitted, s.canExecute, s.log + [DeserializeFailed(g)], s.file, s.backup)
      else
        var emitted := if read.value.Some? then s.emitted + [(g, read.value.value)] else s.emitted;
        ServiceState(types, order, s.views[g := inst.text], s.handedOver + [g], emitted, s.canExecute, s.log, s.file, s.backup)
  }

  /** `WriteCommand.Execute()`: `Execute` runs `Write` without consulting `canExecute`, which
      only a control bound to the command would read. A `Write` that throws is logged and
      pushes false into `canExecute`. */
  function ExecuteWrite(s: ServiceState, codec: GuidCodec, serialize: Guid -> Option<seq<nat>>,
                        fault: FileFault, removesAll: bool): (r: ServiceState)
    requires Valid(s)
    ensures Valid(r) && r.types == s.types && r.order == s.order && r.views == s.views && r.emitted == s.emitted
    ensures r.canExecute ==> s.canExecute
  {
    var o := WriteSettings(s.file, s.backup, s.order, s.types, codec, serialize, fault, removesAll);
    s.(file := o.file, backup := o.backup, canExecute := s.canExecute && o.error.None?,
       log := s.log + o.logged + (if o.error.Some? then [WriteCommandFailed] else []))
  }

  // ---------------------------------------------------------------------------------
  // Properties
  // ---------------------------------------------------------------------------------

  lemma InitialIsValid(file: Option<FileContent>, backup: Option<FileContent>)
    ensures Valid(Initial(file, backup)) && Initial(file, backup).canExecute
  {
  }

  lemma InstallKeepsValid(s: ServiceState, inst: Installation, opens: nat -> bool, retryRecovers: bool,
                          codec: GuidCodec, decode: seq<nat> -> Decoded)
    requires Valid(s)
    ensures Valid(Install(s, inst, opens, retryRecovers, codec, decode))
  {
    var r := Install(s, inst, opens, retryRecovers, codec, decode);
    if inst.guid !in s.types {
      assert r.order == s.order + [inst.guid];
      assert forall i :: 0 <= i < |s.order| ==> r.order[i] == s.order[i];
    }
  }

  /** Installing a GUID a second time logs a warning and keeps the first serializer; no view
      is added and no view model gets a subject. */
  lemma DuplicateInstallOnlyWarns(s: ServiceState, inst: Installation, opens: nat -> bool, retryRecovers: bool,
                                  codec: GuidCodec, decode: seq<nat> -> Decoded)
    requires inst.guid in s.types
    ensures var r := Install(s, inst, opens, retryRecovers, codec, decode);
            r.types == s.types && r.views == s.views && r.handedOver == s.handedOver
            && r.file == s.file && r.log == s.log + [AlreadyInstalled(inst.guid)]
  {
  }

  /** A new GUID whose settings are read successfully, or not read at all, gets its
      serializer, its view and its subject. */
  lemma InstallAddsView(s: ServiceState, inst: Installation, opens: nat -> bool, retryRecovers: bool,
                        codec: GuidCodec, decode: seq<nat> -> Decoded)
    requires inst.guid !in s.types
    requires inst.tryRead ==> Deserialize(s.file, inst.guid, opens, retryRecovers, codec, decode).Success?
    ensures var r := Install(s, inst, opens, retryRecovers, codec, decode);
            r.types == s.types[inst.guid := inst.typeName] && r.views == s.views[inst.guid := inst.text]
            && r.handedOver == s.handedOver + [inst.guid] && r.log == s.log
  {
  }

  /** A failed read of existing settings leaves the serializer installed but adds no view. */
  lemma FailedReadAddsNoView(s: ServiceState, inst: Installation, opens: nat -> bool, retryRecovers: bool,
                             codec: GuidCodec, decode: seq<nat> -> Decoded)
    requires Valid(s) && inst.guid !in s.types && inst.tryRead
    requires Deserialize(s.file, inst.guid, opens, retryRecovers, codec, decode).Failure?
    ensures var r := Install(s, inst, opens, retryRecovers, codec, decode);
            inst.guid in r.types && inst.guid !in r.views && r.handedOver == s.handedOver
            && r.log == s.log + [DeserializeFailed(inst.guid)]
  {
  }

  /** A write that throws is logged and disables the command for good; a later `Execute()`
      still writes the file, and the command stays disabled. */
  lemma FailedWriteDisablesCommand(s: ServiceState, codec: GuidCodec, serialize: Guid -> Option<seq<nat>>,
                                   fault: FileFault, serialize2: Guid -> Option<seq<nat>>, fault2: FileFault,
                                   removesAll: bool)
    requires Valid(s)
    requires WriteSettings(s.file, s.backup, s.order, s.types, codec, serialize, fault, removesAll).error.Some?
    ensures var r := ExecuteWrite(s, codec, serialize, fault, removesAll);
            var again := ExecuteWrite(r, codec, serialize2, fault2, removesAll);
            var o := WriteSettings(r.file, r.backup, r.order, r.types, codec, serialize2, fault2, removesAll);
            !r.canExecute && r.log[|r.log| - 1] == WriteCommandFailed && Valid(r)
            && !again.canExecute && again.file == o.file && again.backup == o.backup
  {
  }

  /** A write that succeeds leaves `canExecute` as it was. */
  lemma SuccessfulWriteKeepsCommandState(s: ServiceState, codec: GuidCodec, serialize: Guid -> Option<seq<nat>>,
                                         fault: FileFault, removesAll: bool)
    requires Valid(s)
    requires WriteSettings(s.file, s.backup, s.order, s.types, codec, serialize, fault, removesAll).error.None?
    ensures var r := ExecuteWrite(s, codec, serialize, fault, removesAll);
            var o := WriteSettings(s.file, s.backup, s.order, s.types, codec, serialize, fault, removesAll);
            r.canExecute == s.canExecute && r.file == o.file && r.log == s.log + o.logged && Valid(r)
  {
  }

  /** An existing file that cannot be opened for reading fails the write before anything is
      moved or serialized: file and backup stay, only the command's failure is logged, and
      `canExecute` turns false. */
  lemma LockedFileFailsBeforeAnything(s: ServiceState, codec: GuidCodec, serialize: Guid -> Option<seq<nat>>,
                                      removesAll: bool)
    requires Valid(s) && s.file.Some?
    ensures var r := ExecuteWrite(s, codec, serialize, OpenForReadFails, removesAll);
            r.file == s.file && r.backup == s.backup && r.log == s.log + [WriteCommandFailed] && !r.canExecute
  {
  }

  /** With the removal the comment in `ReadExistingSettings` describes, after a write that
      succeeds each installed GUID is in exactly one entry of the file. */
  lemma ExecuteWriteStoresEachGuidOnce(s: ServiceState, codec: GuidCodec, serialize: Guid -> Option<seq<nat>>, g: Guid)
    requires Valid(s) && Sound(codec) && g in s.types
    requires WriteSettings(s.file, s.backup, s.order, s.types, codec, serialize, NoFault, true).error.None?
    ensures var r := ExecuteWrite(s, codec, serialize, NoFault, true);
            r.canExecute == s.canExecute && r.file.Some? && r.file.value.Parsed? && r.file.value.root.Some?
            && CountWithGuid(ServiceEntries(r.file.value.root.value), g, codec) == 1
  {
    WriteEachGuidOnce(s.file, s.backup, s.order, s.types, codec, serialize, NoFault, g);
  }

  /** With the removal the comment in `ReadExistingSettings` describes, a page installed after a
      successful write, with reading on, receives the value the write stored for it. */
  lemma InstallReadsWhatWasWritten(s: ServiceState, codec: GuidCodec, serialize: Guid -> Option<seq<nat>>,
                                   g: Guid, v: nat, later: ServiceState, inst: Installation,
                                   opens: nat -> bool, decode: seq<nat> -> Decoded)
    requires Valid(s) && Sound(codec) && g in s.types
    requires serialize(g).Some? && serialize(g).value != [] && decode(serialize(g).value) == Decoded(v)
    requires WriteSettings(s.file, s.backup, s.order, s.types, codec, serialize, NoFault, true).error.None?
    requires later == Initial(ExecuteWrite(s, codec, serialize, NoFault, true).file, None)
    requires inst.guid == g && inst.tryRead && opens(0)
    ensures Install(later, inst, opens, false, codec, decode).emitted == [(g, v)]
  {
    ReadAfterWrite(s.file, s.backup, s.order, s.types, codec, serialize, g, decode);
  }

  // ---------------------------------------------------------------------------------
  // The service
  // ---------------------------------------------------------------------------------

  class SettingsService {
    /** `Guid.TryParse` and GUID formatting. */
    const codec: GuidCodec
    /** Selects the evidently intended check after the open loop (see `OpenThrows`). */
    const retryRecovers: bool
    /** Selects the evidently intended removal of recognised entries (see `Removed`). */
    const removesAll: bool
    var types: map<Guid, string>
    var order: seq<Guid>
    var views: map<Guid, string>
    var handedOver: seq<Guid>
    var emitted: seq<(Guid, nat)>
    var canExecute: bool
    var log: seq<LogEntry>
    var file: Option<FileContent>
    var backup: Option<FileContent>

    function State(): ServiceState
      reads this
    {
      ServiceState(types, order, views, handedOver, emitted, canExecute, log, file, backup)
    }

    constructor(codec: GuidCodec, retryRecovers: bool, removesAll: bool, file: Option<FileContent>, backup: Option<FileContent>)
      ensures State() == Initial(file, backup) && this.codec == codec
      ensures this.retryRecovers == retryRecovers && this.removesAll == removesAll
    {
      this.codec := codec;
      this.retryRecovers := retryRecovers;
      this.removesAll := removesAll;
      types, order, views, handedOver, emitted := map[], [], map[], [], [];
      canExecute, log := true, [];
      this.file, this.backup := file, backup;
    }

    /** `InstallImplementation`; `opens` and `decode` stand for the file system and the
        XML serializer during the read. */
    method InstallImplementation(inst: Installation, opens: nat -> bool, decode: seq<nat> -> Decoded)
      modifies this`types, this`order, this`log, this`emitted, this`handedOver, this`views
      ensures State() == Install(old(State()), inst, opens, retryRecovers, codec, decode)
    {
      var g := inst.guid;
      if g in types {
        log := log + [AlreadyInstalled(g)];
        return;
      }
      types := types[g := inst.typeName];
      order := order + [g];
      if inst.tryRead {
        var read := DeserializeAsync(file, g, opens, retryRecovers, codec, decode);
        if read.Failure? {
          log := log + [DeserializeFailed(g)];
          return;
        }
        if read.value.Some? {
          emitted := emitted + [(g, read.value.value)];
        }
      }
      handedOver := handedOver + [g];
      views := views[g := inst.text];
    }

    /** `WriteCommand.Execute()`; `serialize` stands for the view models' serializers and
        `fault` for what the file system does to the write. */
    method ExecuteWriteCommand(serialize: Guid -> Option<seq<nat>>, fault: FileFault)
      requires Valid(State())
      modifies this`file, this`backup, this`log, this`canExecute
      ensures State() == ExecuteWrite(old(State()), codec, serialize, fault, removesAll)
    {
      var newFile, newBackup, logged, error := WriteFile(file, backup, order, types, codec, serialize, fault, removesAll);
      file, backup := newFile, newBackup;
      log := log + logged;
      if error.Some? {
        canExecute := false;
        log := log + [WriteCommandFailed];
      }
    }
  }

  /** An empty settings file cannot be read: installing with reading on logs one warning
      and sets up no view. */
  method ReadFromEmptyFileFails(codec: GuidCodec, decode: seq<nat> -> Decoded) returns (log: seq<LogEntry>, views: map<Guid, string>)
    ensures log == [DeserializeFailed(1)] && views == map[]
  {
    var service := new SettingsService(codec, false, false, Some(Unparsable), None);
    service.InstallImplementation(Installation(1, "System.Int32", "", true), _ => true, decode);
    log, views := service.log, service.views;
  }
}
