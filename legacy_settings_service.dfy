/** The older settings service (Palladium.Settings/SettingsService.cs). It reads and writes
    the same settings file as the newer one, but `Install` registers the serializer with
    `Dictionary.Add`, which throws for a GUID already installed, hands the subject to the
    view model even when the read fails, and the write command is never disabled. */
module LegacySettings {
  import opened Wrappers
  import opened Guids
  import opened SettingsDocument

  /** A view model as `Install` receives it: its GUID, the name of its data type, and
      whether existing settings should be read. */
  datatype LegacyInstallation = LegacyInstallation(guid: Guid, typeName: string, tryRead: bool)

  /** `Install` throws (`ArgumentException` from `Dictionary.Add`), or the `Task` it returns
      faults because the read failed. */
  datatype InstallFault = DuplicateGuid | ReadFaulted(error: ReadError)

  datatype LegacyState = LegacyState(
    types: map<Guid, string>, order: seq<Guid>, handedOver: seq<Guid>, emitted: seq<(Guid, nat)>,
    log: seq<LogEntry>, file: Option<FileContent>, backup: Option<FileContent>)

  datatype InstallOutcome = InstallOutcome(state: LegacyState, fault: Option<InstallFault>)

  datatype LegacyWriteOutcome = LegacyWriteOutcome(state: LegacyState, error: Option<WriteError>)

  predicate Valid(s: LegacyState) {
    Distinct(s.order) && forall g :: g in s.order <==> g in s.types
  }

  /** `Install`: the serializer is added (or `Add` throws first), the read runs if asked and
      logs a warning when it faults, and the view model gets its subject in every case. */
  function InstallEffect(s: LegacyState, inst: LegacyInstallation, opens: nat -> bool, retryRecovers: bool,
                         codec: GuidCodec, decode: seq<nat> -> Decoded): (o: InstallOutcome)
    ensures o.fault == Some(DuplicateGuid) <==> inst.guid in s.types
    ensures o.state.types.Keys == s.types.Keys + {inst.guid} && o.state.file == s.file
  {
    var g := inst.guid;
    if g in s.types then InstallOutcome(s, Some(DuplicateGuid))
    else
      var read := if inst.tryRead then Deserialize(s.file, g, opens, retryRecovers, codec, decode) else Success(None);
      var emitted := if read.Success? && read.value.Some? then s.emitted + [(g, read.value.value)] else s.emitted;
      var log := if read.Failure? then s.log + [DeserializeFailed(g)] else s.log;
      InstallOutcome(LegacyState(s.types[g := inst.typeName], s.order + [g], s.handedOver + [g], emitted, log, s.file, s.backup),
                     if read.Failure? then Some(ReadFaulted(read.error)) else None)
  }

  /** `WriteCommand.Execute()`: `Write`, whose exception, if any, is the command's. */
  function Write(s: LegacyState, codec: GuidCodec, serialize: Guid -> Option<seq<nat>>, fault: FileFault, removesAll: bool): (o: LegacyWriteOutcome)
    requires Valid(s)
    ensures Valid(o.state) && o.state.types == s.types && o.state.order == s.order && o.state.handedOver == s.handedOver
    ensures o.error.None? ==> o.state.file.Some? && o.state.file.value.Parsed?
  {
    var o := WriteSettings(s.file, s.backup, s.order, s.types, codec, serialize, fault, removesAll);
    LegacyWriteOutcome(LegacyState(s.types, s.order, s.handedOver, s.emitted, s.log + o.logged, o.file, o.backup), o.error)
  }

  // ---------------------------------------------------------------------------------
  // Properties
  // ---------------------------------------------------------------------------------

  lemma InstallKeepsValid(s: LegacyState, inst: LegacyInstallation, opens: nat -> bool, retryRecovers: bool,
                          codec: GuidCodec, decode: seq<nat> -> Decoded)
    requires Valid(s)
    ensures Valid(InstallEffect(s, inst, opens, retryRecovers, codec, decode).state)
  {
    var r := InstallEffect(s, inst, opens, retryRecovers, codec, decode).state;
    if inst.guid !in s.types {
      assert forall i :: 0 <= i < |s.order| ==> r.order[i] == s.order[i];
    }
  }

  /** Installing a GUID a second time throws before anything changes. */
  lemma DuplicateInstallThrows(s: LegacyState, inst: LegacyInstallation, opens: nat -> bool, retryRecovers: bool,
                               codec: GuidCodec, decode: seq<nat> -> Decoded)
    requires inst.guid in s.types
    ensures InstallEffect(s, inst, opens, retryRecovers, codec, decode) == InstallOutcome(s, Some(DuplicateGuid))
  {
  }

  /** A new GUID is registered and its view model gets the subject, whether or not the read
      succeeds; a failed read faults the returned `Task` and logs a warning. */
  lemma InstallHandsOverEvenWhenReadFails(s: LegacyState, inst: LegacyInstallation, opens: nat -> bool, retryRecovers: bool,
                                          codec: GuidCodec, decode: seq<nat> -> Decoded)
    requires inst.guid !in s.types
    ensures var o := InstallEffect(s, inst, opens, retryRecovers, codec, decode);
            var read := Deserialize(s.file, inst.guid, opens, retryRecovers, codec, decode);
            o.state.types == s.types[inst.guid := inst.typeName] && o.state.handedOver == s.handedOver + [inst.guid]
            && (o.fault.Some? <==> inst.tryRead && read.Failure?)
            && (o.fault.Some? ==> o.state.log == s.log + [DeserializeFailed(inst.guid)])
  {
  }

  /** Without reading, `Install` completes at once and emits nothing. */
  lemma InstallWithoutReading(s: LegacyState, inst: LegacyInstallation, opens: nat -> bool, retryRecovers: bool,
                              codec: GuidCodec, decode: seq<nat> -> Decoded)
    requires inst.guid !in s.types && !inst.tryRead
    ensures var o := InstallEffect(s, inst, opens, retryRecovers, codec, decode);
            o.fault.None? && o.state.emitted == s.emitted && o.state.log == s.log
            && o.state.handedOver == s.handedOver + [inst.guid]
  {
  }

  /** With the removal the comment in `ReadExistingSettings` describes, after a write that
      succeeds each installed GUID is in exactly one entry of the file. */
  lemma WriteStoresEachGuidOnce(s: LegacyState, codec: GuidCodec, serialize: Guid -> Option<seq<nat>>, g: Guid)
    requires Valid(s) && Sound(codec) && g in s.types
    requires Write(s, codec, serialize, NoFault, true).error.None?
    ensures var r := Write(s, codec, serialize, NoFault, true).state;
            r.file.Some? && r.file.value.Parsed? && r.file.value.root.Some?
            && CountWithGuid(ServiceEntries(r.file.value.root.value), g, codec) == 1
  {
    WriteEachGuidOnce(s.file, s.backup, s.order, s.types, codec, serialize, NoFault, g);
  }

  // ---------------------------------------------------------------------------------
  // The service
  // ---------------------------------------------------------------------------------

  class LegacySettingsService {
    const codec: GuidCodec
    /** Selects the evidently intended check after the open loop (see `OpenThrows`). */
    const retryRecovers: bool
    /** Selects the evidently intended removal of recognised entries (see `Removed`). */
    const removesAll: bool
    var types: map<Guid, string>
    var order: seq<Guid>
    var handedOver: seq<Guid>
    var emitted: seq<(Guid, nat)>
    var log: seq<LogEntry>
    var file: Option<FileContent>
    var backup: Option<FileContent>

    function State(): LegacyState
      reads this
    {
      LegacyState(types, order, handedOver, emitted, log, file, backup)
    }

    constructor(codec: GuidCodec, retryRecovers: bool, removesAll: bool, file: Option<FileContent>, backup: Option<FileContent>)
      ensures State() == LegacyState(map[], [], [], [], [], file, backup)
      ensures this.codec == codec && this.retryRecovers == retryRecovers && this.removesAll == removesAll
    {
      this.codec := codec;
      this.retryRecovers := retryRecovers;
      this.removesAll := removesAll;
      types, order, handedOver, emitted, log := map[], [], [], [], [];
      this.file, this.backup := file, backup;
    }

    method Install(inst: LegacyInstallation, opens: nat -> bool, decode: seq<nat> -> Decoded) returns (fault: Option<InstallFault>)
      modifies this`types, this`order, this`handedOver, this`emitted, this`log
      ensures var o := InstallEffect(old(State()), inst, opens, retryRecovers, codec, decode);
              State() == o.state && fault == o.fault
    {
      var g := inst.guid;
      if g in types {
        return Some(DuplicateGuid);
      }
      types := types[g := inst.typeName];
      order := order + [g];
      fault := None;
      if inst.tryRead {
        var read := DeserializeAsync(file, g, opens, retryRecovers, codec, decode);
        if read.Failure? {
          log := log + [DeserializeFailed(g)];
          fault := Some(ReadFaulted(read.error));
        } else if read.value.Some? {
          emitted := emitted + [(g, read.value.value)];
        }
      }
      handedOver := handedOver + [g];
    }

    method ExecuteWriteCommand(serialize: Guid -> Option<seq<nat>>, fault: FileFault) returns (error: Option<WriteError>)
      requires Valid(State())
      modifies this`file, this`backup, this`log
      ensures var o := Write(old(State()), codec, serialize, fault, removesAll);
              State() == o.state && error == o.error
    {
      var newFile, newBackup, logged;
      newFile, newBackup, logged, error := WriteFile(file, backup, order, types, codec, serialize, fault, removesAll);
      file, backup := newFile, newBackup;
      log := log + logged;
    }
  }
}
