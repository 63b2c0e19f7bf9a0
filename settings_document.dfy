/** The settings file as both copies of `SettingsService` read and write it
    (AppSource/Palladium.Settings/SettingsService.cs, Palladium.Settings/SettingsService.cs).
    The file holds a `PalladiumSettings` root with an `ActionSettingsService` element whose
    children are the entries; an `ActionSettings` entry carries a `Guid` and a `Type`
    attribute and the serialized value as its child nodes. XML parsing, `Guid.TryParse`,
    GUID formatting and the XML serializer are parameters. */
module SettingsDocument {
  import opened Wrappers
  import opened Guids
  import opened XExtensions

  /** A child of `ActionSettingsService`; `content` stands for its child nodes. */
  datatype Entry = Entry(name: string, attributes: map<string, string>, content: seq<nat>)

  /** The `PalladiumSettings` root; `service` holds the children of its first
      `ActionSettingsService` element, if it has one. */
  datatype Root = Root(service: Option<seq<Entry>>)

  /** A file is either well-formed XML, whose root may not be `PalladiumSettings`, or not. */
  datatype FileContent = Parsed(root: Option<Root>) | Unparsable

  /** `Guid.TryParse` and the text `SetAttributeValue` writes for a GUID. */
  datatype GuidCodec = GuidCodec(parse: string -> Option<Guid>, format: Guid -> string)

  /** What `XmlSerializer.Deserialize` makes of an entry's content. */
  datatype Decoded = Decoded(value: nat) | WrongType | DecodeThrows

  datatype LogEntry =
    | AlreadyInstalled(guid: Guid)
    | DeserializeFailed(guid: Guid)
    | SerializeFailed(guid: Guid)
    | WriteCommandFailed

  /** `SettingsService.Write` throws: the existing file cannot be opened for reading,
      `document.Element("PalladiumSettings")!` is null for a well-formed file with another root,
      or cancelling or writing the file fails. */
  datatype WriteError = OpenForReadFailed | NoSettingsRoot | WriteFailed

  /** What the file system does to a `Write`: nothing goes wrong, the existing file cannot be
      opened for reading (it is locked, or access is denied), or writing the new file fails or
      the write is cancelled. */
  datatype FileFault = NoFault | OpenForReadFails | WriteFails

  /** `DeserializeAsync` throws: the file could not be opened, is not XML, or the
      serializer threw. */
  datatype ReadError = OpenFailed | NotXml | ContentThrows

  const MaxAttempts: nat := 5

  predicate Sound(codec: GuidCodec) {
    forall g :: codec.parse(codec.format(g)) == Some(g)
  }

  /** The children of `ActionSettingsService` once `GetElementOrCreate` has found or made it. */
  function ServiceEntries(r: Root): seq<Entry> {
    if r.service.Some? then r.service.value else []
  }

  /** An `ActionSettings` entry whose GUID attribute parses to a registered GUID. */
  predicate Recognised(e: Entry, keys: set<Guid>, codec: GuidCodec) {
    var (ok, g) := TryGetGuidAttribute(e.attributes, codec.parse);
    e.name == "ActionSettings" && ok && g in keys
  }

  /** The `ActionSettings` entries whose GUID attribute parses to `g`. */
  predicate HasGuid(e: Entry, g: Guid, codec: GuidCodec) {
    var (ok, h) := TryGetGuidAttribute(e.attributes, codec.parse);
    e.name == "ActionSettings" && ok && h == g
  }

  /** Every recognised entry removed: what the comment above the removal loop of
      `ReadExistingSettings` describes. */
  function RemoveRecognised(es: seq<Entry>, keys: set<Guid>, codec: GuidCodec): (r: seq<Entry>)
    ensures |r| <= |es|
    ensures forall i :: 0 <= i < |r| ==> !Recognised(r[i], keys, codec)
  {
    if |es| == 0 then []
    else
      var rest := RemoveRecognised(es[..|es|-1], keys, codec);
      if Recognised(es[|es|-1], keys, codec) then rest else rest + [es[|es|-1]]
  }

  /** The first recognised entry removed: what the removal loop does as written. The loop
      removes elements while it enumerates `Elements("ActionSettings")` lazily, and that
      enumeration moves on from the element it last returned; once that element is removed it
      has no parent, and the enumeration ends. */
  function RemoveFirstRecognised(es: seq<Entry>, keys: set<Guid>, codec: GuidCodec): (r: seq<Entry>)
    ensures |r| == (if exists i :: 0 <= i < |es| && Recognised(es[i], keys, codec) then |es| - 1 else |es|)
  {
    if |es| == 0 then []
    else if Recognised(es[0], keys, codec) then es[1..]
    else [es[0]] + RemoveFirstRecognised(es[1..], keys, codec)
  }

  /** The removal of `ReadExistingSettings`: as written when `removesAll` is false, as the
      comment describes it when true. */
  function Removed(es: seq<Entry>, keys: set<Guid>, codec: GuidCodec, removesAll: bool): seq<Entry> {
    if removesAll then RemoveRecognised(es, keys, codec) else RemoveFirstRecognised(es, keys, codec)
  }

  function CountWithGuid(es: seq<Entry>, g: Guid, codec: GuidCodec): nat {
    if |es| == 0 then 0
    else CountWithGuid(es[..|es|-1], g, codec) + (if HasGuid(es[|es|-1], g, codec) then 1 else 0)
  }

  /** The entry `Write` adds for a registered GUID; a serializer that throws leaves it
      without content. */
  function NewEntry(g: Guid, typeName: string, codec: GuidCodec, serialized: Option<seq<nat>>): Entry {
    Entry("ActionSettings", map["Guid" := codec.format(g), "Type" := typeName],
          if serialized.Some? then serialized.value else [])
  }

  function NewEntries(order: seq<Guid>, types: map<Guid, string>, codec: GuidCodec,
                      serialize: Guid -> Option<seq<nat>>): seq<Entry>
    requires forall g :: g in order ==> g in types
  {
    if |order| == 0 then []
    else
      var g := order[|order|-1];
      NewEntries(order[..|order|-1], types, codec, serialize) + [NewEntry(g, types[g], codec, serialize(g))]
  }

  function SerializeFailures(order: seq<Guid>, serialize: Guid -> Option<seq<nat>>): seq<LogEntry> {
    if |order| == 0 then []
    else
      var g := order[|order|-1];
      SerializeFailures(order[..|order|-1], serialize) + (if serialize(g).None? then [SerializeFailed(g)] else [])
  }

  /** `ReadExistingSettings`: None for a file that is not XML; otherwise the file after the
      removal of recognised entries (and an `ActionSettingsService` element made if the root
      had none). */
  function ReadExisting(c: FileContent, keys: set<Guid>, codec: GuidCodec, removesAll: bool): (r: Option<Option<Root>>)
    ensures r.None? <==> c.Unparsable?
    ensures r == Some(None) <==> c == Parsed(None)
  {
    match c
    case Unparsable => None
    case Parsed(None) => Some(None)
    case Parsed(Some(r)) => Some(Some(Root(Some(Removed(ServiceEntries(r), keys, codec, removesAll)))))
  }

  /** What `Write` leaves behind: the settings file, the backup file, the log entries it
      emits and the exception it throws, if any. */
  datatype WriteOutcome = WriteOutcome(file: Option<FileContent>, backup: Option<FileContent>,
                                       logged: seq<LogEntry>, error: Option<WriteError>)

  /** `Write`: an existing file that cannot be opened for reading makes it throw at once;
      otherwise an unreadable file is moved to the backup and a fresh document started;
      recognised entries are removed and one entry is appended per registered GUID, in
      `order`, which stands for the dictionary's enumeration order. */
  function WriteSettings(file: Option<FileContent>, backup: Option<FileContent>, order: seq<Guid>,
                         types: map<Guid, string>, codec: GuidCodec,
                         serialize: Guid -> Option<seq<nat>>, fault: FileFault, removesAll: bool): (r: WriteOutcome)
    requires forall g :: g in order ==> g in types
    ensures r.error == (if file.Some? && fault == OpenForReadFails then Some(OpenForReadFailed)
                        else if file == Some(Parsed(None)) then Some(NoSettingsRoot)
                        else if fault == WriteFails then Some(WriteFailed) else None)
    ensures r.error.None? ==> r.file.Some? && r.file.value.Parsed? && r.file.value.root.Some?
    ensures r.error == Some(OpenForReadFailed) ==> r.file == file && r.backup == backup && r.logged == []
    ensures r.error.Some? && r.error != Some(OpenForReadFailed) ==>
              r.file == (if file == Some(Unparsable) then None else file)
    ensures r.error != Some(OpenForReadFailed) ==>
              r.backup == (if file == Some(Unparsable) then file else backup)
  {
    if file.Some? && fault == OpenForReadFails then WriteOutcome(file, backup, [], Some(OpenForReadFailed))
    else
    var existing := if file.Some? then ReadExisting(file.value, types.Keys, codec, removesAll) else None;
    var movedFile := if file.Some? && existing.None? then None else file;
    var movedBackup := if file.Some? && existing.None? then file else backup;
    var root := if existing.Some? then existing.value else Some(Root(Some([])));
    if root.None? then WriteOutcome(movedFile, movedBackup, [], Some(NoSettingsRoot))
    else
      var entries := ServiceEntries(root.value) + NewEntries(order, types, codec, serialize);
      var logged := SerializeFailures(order, serialize);
      if fault == WriteFails then WriteOutcome(movedFile, movedBackup, logged, Some(WriteFailed))
      else WriteOutcome(Some(Parsed(Some(Root(Some(entries))))), movedBackup, logged, None)
  }

  /** The index of the first entry with GUID `g`, as `FirstOrDefault` finds it. */
  function FirstWithGuid(es: seq<Entry>, g: Guid, codec: GuidCodec): (r: Option<nat>)
    ensures r.Some? ==> r.value < |es| && HasGuid(es[r.value], g, codec)
                        && forall j :: 0 <= j < r.value ==> !HasGuid(es[j], g, codec)
    ensures r.None? ==> forall j :: 0 <= j < |es| ==> !HasGuid(es[j], g, codec)
  {
    if |es| == 0 then None
    else if HasGuid(es[0], g, codec) then Some(0)
    else
      var rest := FirstWithGuid(es[1..], g, codec);
      if rest.Some? then Some(rest.value + 1) else None
  }

  /** The stream half of `DeserializeAsync`: the first matching entry's content, decoded;
      nothing when there is no match or the match has no child node. */
  function ReadValue(c: FileContent, g: Guid, codec: GuidCodec, decode: seq<nat> -> Decoded): (r: Result<Option<nat>, ReadError>)
    ensures r == Failure(NotXml) <==> c.Unparsable?
    ensures r.Failure? ==> r.error == NotXml || r.error == ContentThrows
    ensures c.Parsed? && (c.root.None? || FirstWithGuid(ServiceEntries(c.root.value), g, codec).None?) ==> r == Success(None)
  {
    if c.Unparsable? then Failure(NotXml)
    else if c.root.None? then Success(None)
    else
      var es := ServiceEntries(c.root.value);
      var i := FirstWithGuid(es, g, codec);
      if i.None? || es[i.value].content == [] then Success(None)
      else match decode(es[i.value].content)
        case Decoded(v) => Success(Some(v))
        case WrongType => Success(None)
        case DecodeThrows => Failure(ContentThrows)
  }

  /** The index of the first of the attempts `from`, ..., `MaxAttempts - 1` that opens the file. */
  function FirstOpen(opens: nat -> bool, from: nat): (r: Option<nat>)
    requires from <= MaxAttempts
    ensures r.Some? ==> from <= r.value < MaxAttempts && opens(r.value)
                        && forall j :: from <= j < r.value ==> !opens(j)
    ensures r.None? ==> forall j :: from <= j < MaxAttempts ==> !opens(j)
    decreases MaxAttempts - from
  {
    if from == MaxAttempts then None
    else if opens(from) then Some(from)
    else FirstOpen(opens, from + 1)
  }

  /** The open loop of `DeserializeAsync`: attempt `i` opens the file when `opens(i)`; the loop
      stops at the first success or after `MaxAttempts` attempts, and counts the failures. */
  method OpenWithRetry(opens: nat -> bool) returns (didOpen: bool, attempts: nat, failures: nat)
    ensures var first := FirstOpen(opens, 0);
            didOpen == first.Some?
            && failures == (if didOpen then first.value else MaxAttempts)
            && attempts == failures + (if didOpen then 1 else 0)
    ensures 1 <= attempts <= MaxAttempts
  {
    didOpen := false;
    attempts := 0;
    failures := 0;
    while !didOpen && attempts < MaxAttempts
      invariant attempts <= MaxAttempts && failures == attempts - (if didOpen then 1 else 0)
      invariant didOpen ==> attempts >= 1
      invariant FirstOpen(opens, 0) == (if didOpen then Some(attempts - 1) else FirstOpen(opens, attempts))
      decreases MaxAttempts - attempts, if didOpen then 0 else 1
    {
      if opens(attempts) {
        didOpen := true;
      } else {
        failures := failures + 1;
      }
      attempts := attempts + 1;
    }
  }

  /** One more entry for the intended removal: it is dropped if recognised and kept otherwise. */
  lemma RemoveRecognisedStep(es: seq<Entry>, keys: set<Guid>, codec: GuidCodec, i: nat)
    requires i < |es|
    ensures RemoveRecognised(es[..i + 1], keys, codec)
            == RemoveRecognised(es[..i], keys, codec) + (if Recognised(es[i], keys, codec) then [] else [es[i]])
  {
    assert es[..i + 1][..i] == es[..i];
  }

  /** The removal as written, from entry `i` on: an unrecognised entry is kept and the rest
      follows; a recognised one is dropped and the rest is kept as it is. */
  lemma RemoveFirstRecognisedStep(es: seq<Entry>, keys: set<Guid>, codec: GuidCodec, i: nat)
    requires i < |es|
    ensures RemoveFirstRecognised(es[i..], keys, codec)
            == if Recognised(es[i], keys, codec) then es[i + 1..]
               else [es[i]] + RemoveFirstRecognised(es[i + 1..], keys, codec)
  {
    assert es[i..][1..] == es[i + 1..];
  }

  /** The removal loop of `ReadExistingSettings`: the recognised entries are removed in turn
      while they are enumerated; as written (`removesAll` false) the enumeration ends at the
      first removal. */
  method RemoveRecognisedEntries(es: seq<Entry>, keys: set<Guid>, codec: GuidCodec, removesAll: bool) returns (kept: seq<Entry>)
    ensures kept == Removed(es, keys, codec, removesAll)
  {
    kept := [];
    var i := 0;
    if removesAll {
      while i < |es|
        invariant i <= |es| && kept == RemoveRecognised(es[..i], keys, codec)
      {
        RemoveRecognisedStep(es, keys, codec, i);
        if !Recognised(es[i], keys, codec) {
          kept := kept + [es[i]];
        }
        i := i + 1;
      }
      assert es[..|es|] == es;
    } else {
      while i < |es|
        invariant i <= |es| && kept + RemoveFirstRecognised(es[i..], keys, codec) == RemoveFirstRecognised(es, keys, codec)
      {
        RemoveFirstRecognisedStep(es, keys, codec, i);
        if !Recognised(es[i], keys, codec) {
          assert (kept + [es[i]]) + RemoveFirstRecognised(es[i + 1..], keys, codec)
                 == kept + ([es[i]] + RemoveFirstRecognised(es[i + 1..], keys, codec));
          kept := kept + [es[i]];
          i := i + 1;
        } else {
          // the removed element has no parent to move on from
          kept := kept + es[i + 1..];
          i := |es|;
        }
      }
      assert es[|es|..] == [];
    }
  }

  /** `ReadExistingSettings`. */
  method ReadExistingSettings(c: FileContent, keys: set<Guid>, codec: GuidCodec, removesAll: bool) returns (doc: Option<Option<Root>>)
    ensures doc == ReadExisting(c, keys, codec, removesAll)
  {
    if c.Unparsable? {
      return None;
    }
    if c.root.None? {
      return Some(None);
    }
    var kept := RemoveRecognisedEntries(ServiceEntries(c.root.value), keys, codec, removesAll);
    return Some(Some(Root(Some(kept))));
  }

  /** The serialization loop of `Write`: one new entry per GUID in `order`, and an error
      logged for each serializer that throws. */
  method SerializeAll(order: seq<Guid>, types: map<Guid, string>, codec: GuidCodec,
                      serialize: Guid -> Option<seq<nat>>) returns (added: seq<Entry>, logged: seq<LogEntry>)
    requires forall g :: g in order ==> g in types
    ensures added == NewEntries(order, types, codec, serialize)
    ensures logged == SerializeFailures(order, serialize)
  {
    added := [];
    logged := [];
    for i := 0 to |order|
      invariant added == NewEntries(order[..i], types, codec, serialize)
      invariant logged == SerializeFailures(order[..i], serialize)
    {
      assert order[..i + 1][..i] == order[..i];
      var g := order[i];
      var serialized := serialize(g);
      if serialized.None? {
        logged := logged + [SerializeFailed(g)];
      }
      added := added + [NewEntry(g, types[g], codec, serialized)];
    }
    assert order[..|order|] == order;
  }

  /** `Write` on the file system: the file and backup before, the file and backup after. */
  method WriteFile(file: Option<FileContent>, backup: Option<FileContent>, order: seq<Guid>,
                   types: map<Guid, string>, codec: GuidCodec,
                   serialize: Guid -> Option<seq<nat>>, fault: FileFault, removesAll: bool)
    returns (newFile: Option<FileContent>, newBackup: Option<FileContent>, logged: seq<LogEntry>, error: Option<WriteError>)
    requires forall g :: g in order ==> g in types
    ensures WriteOutcome(newFile, newBackup, logged, error)
            == WriteSettings(file, backup, order, types, codec, serialize, fault, removesAll)
  {
    newFile, newBackup, logged, error := file, backup, [], None;
    if file.Some? && fault == OpenForReadFails {
      return newFile, newBackup, logged, Some(OpenForReadFailed);
    }
    var document: Option<Option<Root>> := None;
    if file.Some? {
      document := ReadExistingSettings(file.value, types.Keys, codec, removesAll);
      // if the contents cannot be read, rename the file so new settings can be created
      if document.None? {
        newBackup := file;
        newFile := None;
      }
    }
    if document.None? {
      document := Some(Some(Root(Some([]))));
    }
    if document.value.None? {
      return newFile, newBackup, [], Some(NoSettingsRoot);
    }
    var kept := ServiceEntries(document.value.value);
    var added;
    added, logged := SerializeAll(order, types, codec, serialize);
    if fault == WriteFails {
      return newFile, newBackup, logged, Some(WriteFailed);
    }
    newFile := Some(Parsed(Some(Root(Some(kept + added)))));
  }

  /** `DeserializeAsync(guid, observer)`, with the open loop. */
  method DeserializeAsync(file: Option<FileContent>, g: Guid, opens: nat -> bool, retryRecovers: bool,
                          codec: GuidCodec, decode: seq<nat> -> Decoded) returns (r: Result<Option<nat>, ReadError>)
    ensures r == Deserialize(file, g, opens, retryRecovers, codec, decode)
  {
    if file.None? {
      return Success(None);
    }
    var didOpen, attempts, failures := OpenWithRetry(opens);
    if OpenThrows(didOpen, failures, retryRecovers) {
      return Failure(OpenFailed);
    }
    r := ReadValue(file.value, g, codec, decode);
  }

  /** Whether `DeserializeAsync` throws after the open loop. As written it throws when any
      attempt failed; `retryRecovers` selects the evidently intended check, which throws only
      when no attempt didOpen the file. */
  predicate OpenThrows(didOpen: bool, failures: nat, retryRecovers: bool) {
    if retryRecovers then !didOpen else failures > 0 || !didOpen
  }

  /** `DeserializeAsync(guid, observer)`: nothing without a file; otherwise the retried open
      and then the stream half. */
  function Deserialize(file: Option<FileContent>, g: Guid, opens: nat -> bool, retryRecovers: bool,
                       codec: GuidCodec, decode: seq<nat> -> Decoded): (r: Result<Option<nat>, ReadError>)
    ensures file.None? ==> r == Success(None)
    ensures r == Failure(OpenFailed) ==> file.Some? && !opens(0)
  {
    if file.None? then Success(None)
    else
      var first := FirstOpen(opens, 0);
      var failures := if first.Some? then first.value else MaxAttempts;
      if OpenThrows(first.Some?, failures, retryRecovers) then Failure(OpenFailed)
      else ReadValue(file.value, g, codec, decode)
  }

  // ---------------------------------------------------------------------------------
  // Properties of the document operations
  // ---------------------------------------------------------------------------------

  /** Removal works entry by entry, so it keeps the order of the entries it keeps. */
  lemma {:induction false} RemoveRecognisedAppend(a: seq<Entry>, b: seq<Entry>, keys: set<Guid>, codec: GuidCodec)
    ensures RemoveRecognised(a + b, keys, codec) == RemoveRecognised(a, keys, codec) + RemoveRecognised(b, keys, codec)
    decreases |b|
  {
    if |b| == 0 {
      assert a + b == a;
    } else {
      assert (a + b)[..|a + b| - 1] == a + b[..|b|-1];
      RemoveRecognisedAppend(a, b[..|b|-1], keys, codec);
    }
  }

  /** An entry survives removal exactly when it was there and is not recognised. */
  lemma {:induction false} RemoveRecognisedMembers(es: seq<Entry>, keys: set<Guid>, codec: GuidCodec, e: Entry)
    ensures e in RemoveRecognised(es, keys, codec) <==> e in es && !Recognised(e, keys, codec)
  {
    if |es| > 0 {
      RemoveRecognisedMembers(es[..|es|-1], keys, codec, e);
      assert es == es[..|es|-1] + [es[|es|-1]];
    }
  }

  /** After removal no entry carries a registered GUID. */
  lemma {:induction false} RemovedHasNoRegisteredGuid(es: seq<Entry>, keys: set<Guid>, codec: GuidCodec, g: Guid)
    requires g in keys
    ensures CountWithGuid(RemoveRecognised(es, keys, codec), g, codec) == 0
  {
    if |es| > 0 {
      RemovedHasNoRegisteredGuid(es[..|es|-1], keys, codec, g);
      var rest := RemoveRecognised(es[..|es|-1], keys, codec);
      var last := es[|es|-1];
      if !Recognised(last, keys, codec) {
        assert (rest + [last])[..|rest + [last]| - 1] == rest;
      }
    }
  }

  lemma {:induction false} CountAppend(a: seq<Entry>, b: seq<Entry>, g: Guid, codec: GuidCodec)
    ensures CountWithGuid(a + b, g, codec) == CountWithGuid(a, g, codec) + CountWithGuid(b, g, codec)
    decreases |b|
  {
    if |b| == 0 {
      assert a + b == a;
    } else {
      assert (a + b)[..|a + b| - 1] == a + b[..|b|-1];
      CountAppend(a, b[..|b|-1], g, codec);
    }
  }

  /** With a sound codec, the entry made for `h` carries `h` and no other GUID. */
  lemma NewEntryHasGuid(h: Guid, typeName: string, codec: GuidCodec, serialized: Option<seq<nat>>, g: Guid)
    requires Sound(codec)
    ensures HasGuid(NewEntry(h, typeName, codec, serialized), g, codec) <==> g == h
  {
    assert codec.parse(codec.format(h)) == Some(h);
  }

  /** With a sound codec, the new entries carry each GUID of `order` once and no other GUID. */
  lemma {:induction false} NewEntriesCount(order: seq<Guid>, types: map<Guid, string>, codec: GuidCodec,
                                           serialize: Guid -> Option<seq<nat>>, g: Guid)
    requires Sound(codec) && forall h :: h in order ==> h in types
    requires forall i, j :: 0 <= i < j < |order| ==> order[i] != order[j]
    ensures CountWithGuid(NewEntries(order, types, codec, serialize), g, codec) == (if g in order then 1 else 0)
  {
    if |order| > 0 {
      var init := order[..|order|-1];
      NewEntriesCount(init, types, codec, serialize, g);
      NewEntriesCountStep(order, types, codec, serialize, g);
      assert order == init + [order[|order|-1]];
      if g == order[|order|-1] {
        assert g !in init;
      }
    }
  }

  lemma NewEntriesCountStep(order: seq<Guid>, types: map<Guid, string>, codec: GuidCodec,
                            serialize: Guid -> Option<seq<nat>>, g: Guid)
    requires Sound(codec) && |order| > 0 && forall h :: h in order ==> h in types
    ensures var h := order[|order|-1];
            CountWithGuid(NewEntries(order, types, codec, serialize), g, codec)
            == CountWithGuid(NewEntries(order[..|order|-1], types, codec, serialize), g, codec) + (if g == h then 1 else 0)
  {
    var h := order[|order|-1];
    var es := NewEntries(order[..|order|-1], types, codec, serialize);
    var e := NewEntry(h, types[h], codec, serialize(h));
    assert (es + [e])[..|es + [e]| - 1] == es;
    NewEntryHasGuid(h, types[h], codec, serialize(h), g);
  }

  /** The count is zero exactly when no entry matches. */
  lemma {:induction false} CountZero(es: seq<Entry>, g: Guid, codec: GuidCodec)
    ensures CountWithGuid(es, g, codec) == 0 <==> forall j :: 0 <= j < |es| ==> !HasGuid(es[j], g, codec)
  {
    if |es| > 0 {
      CountZero(es[..|es|-1], g, codec);
    }
  }

  /** Entries without a match ahead of `xs` only shift where the first match is found. */
  lemma {:induction false} FirstWithGuidAfter(prefix: seq<Entry>, xs: seq<Entry>, g: Guid, codec: GuidCodec)
    requires forall j :: 0 <= j < |prefix| ==> !HasGuid(prefix[j], g, codec)
    ensures var i := FirstWithGuid(xs, g, codec);
            FirstWithGuid(prefix + xs, g, codec) == if i.Some? then Some(|prefix| + i.value) else None
  {
    if |prefix| > 0 {
      assert (prefix + xs)[1..] == prefix[1..] + xs;
      assert (prefix + xs)[0] == prefix[0];
      FirstWithGuidAfter(prefix[1..], xs, g, codec);
    } else {
      assert prefix + xs == xs;
    }
  }

  /** Appending an entry does not move a match already found. */
  lemma {:induction false} FirstWithGuidAppend(es: seq<Entry>, e: Entry, g: Guid, codec: GuidCodec)
    requires FirstWithGuid(es, g, codec).Some?
    ensures FirstWithGuid(es + [e], g, codec) == FirstWithGuid(es, g, codec)
  {
    var i := FirstWithGuid(es, g, codec).value;
    assert forall k :: 0 <= k < |es| ==> (es + [e])[k] == es[k];
    var j := FirstWithGuid(es + [e], g, codec);
    assert j.Some? && j.value <= i;
  }

  /** With a sound codec, the first entry for a GUID of `order` among the new entries is
      the one made for it, holding what the serializer produced. */
  lemma {:induction false} NewEntriesFirst(order: seq<Guid>, types: map<Guid, string>, codec: GuidCodec,
                                           serialize: Guid -> Option<seq<nat>>, g: Guid)
    requires Sound(codec) && forall h :: h in order ==> h in types
    requires forall i, j :: 0 <= i < j < |order| ==> order[i] != order[j]
    requires g in order
    ensures var es := NewEntries(order, types, codec, serialize);
            var i := FirstWithGuid(es, g, codec);
            i.Some? && es[i.value] == NewEntry(g, types[g], codec, serialize(g))
  {
    var init := order[..|order|-1];
    var h := order[|order|-1];
    var es := NewEntries(init, types, codec, serialize);
    var e := NewEntry(h, types[h], codec, serialize(h));
    assert order == init + [h];
    if g == h {
      assert g !in init;
      NewEntriesCount(init, types, codec, serialize, g);
      CountZero(es, g, codec);
      NewEntryHasGuid(h, types[h], codec, serialize(h), g);
      FirstWithGuidAfter(es, [e], g, codec);
    } else {
      NewEntriesFirst(init, types, codec, serialize, g);
      FirstWithGuidAppend(es, e, g, codec);
    }
  }

  // ---------------------------------------------------------------------------------
  // Properties of Write and of reading back
  // ---------------------------------------------------------------------------------

  predicate Distinct(order: seq<Guid>) {
    forall i, j :: 0 <= i < j < |order| ==> order[i] != order[j]
  }

  /** With the removal the comment describes, a `Write` that succeeds leaves every registered
      GUID in exactly one entry: its old entries are dropped and one new entry is appended. */
  lemma WriteEachGuidOnce(file: Option<FileContent>, backup: Option<FileContent>, order: seq<Guid>,
                          types: map<Guid, string>, codec: GuidCodec,
                          serialize: Guid -> Option<seq<nat>>, fault: FileFault, g: Guid)
    requires Sound(codec) && Distinct(order) && (forall h :: h in order <==> h in types)
    requires WriteSettings(file, backup, order, types, codec, serialize, fault, true).error.None?
    ensures var o := WriteSettings(file, backup, order, types, codec, serialize, fault, true);
            o.file.Some? && o.file.value.Parsed? && o.file.value.root.Some?
            && (g in types ==> CountWithGuid(ServiceEntries(o.file.value.root.value), g, codec) == 1)
  {
    var existing := if file.Some? then ReadExisting(file.value, types.Keys, codec, true) else None;
    var root := if existing.Some? then existing.value else Some(Root(Some([])));
    var kept := ServiceEntries(root.value);
    if g in types {
      CountAppend(kept, NewEntries(order, types, codec, serialize), g, codec);
      NewEntriesCount(order, types, codec, serialize, g);
      if existing.Some? {
        RemovedHasNoRegisteredGuid(ServiceEntries(file.value.root.value), types.Keys, codec, g);
      }
    }
  }

  /** The entries the removal keeps survive a `Write`, in their order, ahead of the new ones. */
  lemma WriteKeepsOtherEntries(root: Root, backup: Option<FileContent>, order: seq<Guid>,
                               types: map<Guid, string>, codec: GuidCodec,
                               serialize: Guid -> Option<seq<nat>>, removesAll: bool)
    requires forall h :: h in order ==> h in types
    ensures var o := WriteSettings(Some(Parsed(Some(root))), backup, order, types, codec, serialize, NoFault, removesAll);
            var kept := Removed(ServiceEntries(root), types.Keys, codec, removesAll);
            o.error.None? && o.backup == backup
            && o.file == Some(Parsed(Some(Root(Some(kept + NewEntries(order, types, codec, serialize))))))
  {
  }

  /** A file that is not XML is moved to the backup, and the new file holds only the new
      entries; unless it cannot even be opened, and then it stays where it is. */
  lemma UnparsableFileBackedUp(backup: Option<FileContent>, order: seq<Guid>, types: map<Guid, string>,
                               codec: GuidCodec, serialize: Guid -> Option<seq<nat>>, fault: FileFault, removesAll: bool)
    requires forall h :: h in order ==> h in types
    ensures var o := WriteSettings(Some(Unparsable), backup, order, types, codec, serialize, fault, removesAll);
            (fault == OpenForReadFails ==> o.file == Some(Unparsable) && o.backup == backup && o.logged == [])
            && (fault != OpenForReadFails ==> o.backup == Some(Unparsable))
            && (fault == WriteFails ==> o.file.None?)
            && (fault == NoFault ==> o.file == Some(Parsed(Some(Root(Some(NewEntries(order, types, codec, serialize)))))))
  {
    assert [] + NewEntries(order, types, codec, serialize) == NewEntries(order, types, codec, serialize);
  }

  /** A well-formed file whose root is not `PalladiumSettings` makes `Write` throw and
      leaves the file alone. */
  lemma ForeignRootThrows(backup: Option<FileContent>, order: seq<Guid>, types: map<Guid, string>,
                          codec: GuidCodec, serialize: Guid -> Option<seq<nat>>, fault: FileFault, removesAll: bool)
    requires forall h :: h in order ==> h in types
    ensures var o := WriteSettings(Some(Parsed(None)), backup, order, types, codec, serialize, fault, removesAll);
            o.error == (if fault == OpenForReadFails then Some(OpenForReadFailed) else Some(NoSettingsRoot))
            && o.file == Some(Parsed(None)) && o.backup == backup
  {
  }

  /** A serializer that throws is logged, and its entry is still written, without content. */
  lemma {:induction false} SerializeFailureLogged(order: seq<Guid>, serialize: Guid -> Option<seq<nat>>, g: Guid)
    requires g in order && serialize(g).None?
    ensures SerializeFailed(g) in SerializeFailures(order, serialize)
  {
    var h := order[|order|-1];
    if g != h {
      assert g in order[..|order|-1] by {
        assert order == order[..|order|-1] + [h];
      }
      SerializeFailureLogged(order[..|order|-1], serialize, g);
    }
  }

  /** Behind entries without GUID `g`, the new entries give the value serialized for `g`. */
  lemma ReadNewEntry(kept: seq<Entry>, order: seq<Guid>, types: map<Guid, string>, codec: GuidCodec,
                     serialize: Guid -> Option<seq<nat>>, g: Guid, decode: seq<nat> -> Decoded)
    requires Sound(codec) && Distinct(order) && (forall h :: h in order <==> h in types)
    requires g in types && serialize(g).Some? && serialize(g).value != []
    requires CountWithGuid(kept, g, codec) == 0
    ensures ReadValue(Parsed(Some(Root(Some(kept + NewEntries(order, types, codec, serialize))))), g, codec, decode)
            == match decode(serialize(g).value)
              case Decoded(v) => Success(Some(v))
              case WrongType => Success(None)
              case DecodeThrows => Failure(ContentThrows)
  {
    CountZero(kept, g, codec);
    NewEntriesFirst(order, types, codec, serialize, g);
    FirstWithGuidAfter(kept, NewEntries(order, types, codec, serialize), g, codec);
  }

  /** With the removal the comment describes, reading back after a successful `Write` finds the
      entry `Write` made for a registered GUID: the value the serializer produced is decoded. */
  lemma ReadAfterWrite(file: Option<FileContent>, backup: Option<FileContent>, order: seq<Guid>,
                       types: map<Guid, string>, codec: GuidCodec,
                       serialize: Guid -> Option<seq<nat>>, g: Guid, decode: seq<nat> -> Decoded)
    requires Sound(codec) && Distinct(order) && (forall h :: h in order <==> h in types)
    requires g in types && serialize(g).Some? && serialize(g).value != []
    requires WriteSettings(file, backup, order, types, codec, serialize, NoFault, true).error.None?
    ensures var o := WriteSettings(file, backup, order, types, codec, serialize, NoFault, true);
            ReadValue(o.file.value, g, codec, decode) == match decode(serialize(g).value)
              case Decoded(v) => Success(Some(v))
              case WrongType => Success(None)
              case DecodeThrows => Failure(ContentThrows)
  {
    var existing := if file.Some? then ReadExisting(file.value, types.Keys, codec, true) else None;
    var root := if existing.Some? then existing.value else Some(Root(Some([])));
    var kept := ServiceEntries(root.value);
    assert WriteSettings(file, backup, order, types, codec, serialize, NoFault, true).file.value
           == Parsed(Some(Root(Some(kept + NewEntries(order, types, codec, serialize)))));
    if existing.Some? {
      RemovedHasNoRegisteredGuid(ServiceEntries(file.value.root.value), types.Keys, codec, g);
    }
    ReadNewEntry(kept, order, types, codec, serialize, g, decode);
  }

  /** An entry without content gives no value, whatever the serializer would make of it. */
  lemma ChildlessEntryGivesNothing(es: seq<Entry>, g: Guid, codec: GuidCodec, decode: seq<nat> -> Decoded)
    requires FirstWithGuid(es, g, codec).Some? && es[FirstWithGuid(es, g, codec).value].content == []
    ensures ReadValue(Parsed(Some(Root(Some(es)))), g, codec, decode) == Success(None)
  {
  }

  /** Only the first matching entry is read: a later one with the same GUID is ignored. */
  lemma FirstMatchWins(es: seq<Entry>, later: Entry, g: Guid, codec: GuidCodec, decode: seq<nat> -> Decoded)
    requires FirstWithGuid(es, g, codec).Some?
    ensures ReadValue(Parsed(Some(Root(Some(es + [later])))), g, codec, decode)
            == ReadValue(Parsed(Some(Root(Some(es)))), g, codec, decode)
  {
    FirstWithGuidAppend(es, later, g, codec);
    var i := FirstWithGuid(es, g, codec).value;
    assert (es + [later])[i] == es[i];
  }

  // ---------------------------------------------------------------------------------
  // Properties of the removal as written
  // ---------------------------------------------------------------------------------

  /** As written, the removal drops the first recognised entry and keeps all the others, in
      their order. */
  lemma {:induction false} RemoveFirstRecognisedDropsFirst(es: seq<Entry>, keys: set<Guid>, codec: GuidCodec, i: nat)
    requires i < |es| && Recognised(es[i], keys, codec)
    requires forall j :: 0 <= j < i ==> !Recognised(es[j], keys, codec)
    ensures RemoveFirstRecognised(es, keys, codec) == es[..i] + es[i + 1..]
  {
    if i > 0 {
      RemoveFirstRecognisedDropsFirst(es[1..], keys, codec, i - 1);
      assert es[..i] == [es[0]] + es[1..][..i - 1];
      assert es[i + 1..] == es[1..][i..];
    }
  }

  /** As written, entries are kept as they are when none is recognised. */
  lemma {:induction false} RemoveFirstRecognisedKeepsUnrecognised(es: seq<Entry>, keys: set<Guid>, codec: GuidCodec)
    requires forall j :: 0 <= j < |es| ==> !Recognised(es[j], keys, codec)
    ensures RemoveFirstRecognised(es, keys, codec) == es
  {
    if |es| > 0 {
      RemoveFirstRecognisedKeepsUnrecognised(es[1..], keys, codec);
    }
  }

  /** As written, a recognised entry that follows another recognised entry survives the removal. */
  lemma {:induction false} LaterRecognisedEntrySurvives(es: seq<Entry>, keys: set<Guid>, codec: GuidCodec, i: nat, j: nat)
    requires i < j < |es| && Recognised(es[i], keys, codec) && Recognised(es[j], keys, codec)
    ensures es[j] in RemoveFirstRecognised(es, keys, codec)
  {
    assert es[1..][j - 1] == es[j];
    if !Recognised(es[0], keys, codec) {
      LaterRecognisedEntrySurvives(es[1..], keys, codec, i - 1, j - 1);
    }
  }

  /** As written, a write over a file holding a recognised entry and then an entry for the
      registered GUID `g` removes only the first: the old entry for `g` stays ahead of the new one,
      and reading `g` back gives the old entry's value, not the serializer's. */
  lemma AsWrittenSecondEntryReadStale(ea: Entry, eb: Entry, backup: Option<FileContent>, order: seq<Guid>,
                                      types: map<Guid, string>, codec: GuidCodec,
                                      serialize: Guid -> Option<seq<nat>>, g: Guid, decode: seq<nat> -> Decoded)
    requires forall h :: h in order ==> h in types
    requires Recognised(ea, types.Keys, codec) && HasGuid(eb, g, codec) && g in types
    ensures var o := WriteSettings(Some(Parsed(Some(Root(Some([ea, eb]))))), backup, order, types, codec, serialize, NoFault, false);
            o.file == Some(Parsed(Some(Root(Some([eb] + NewEntries(order, types, codec, serialize))))))
            && ReadValue(o.file.value, g, codec, decode) == ReadValue(Parsed(Some(Root(Some([eb])))), g, codec, decode)
  {
    assert [ea, eb][1..] == [eb];
  }

  // ---------------------------------------------------------------------------------
  // Properties of the retried open
  // ---------------------------------------------------------------------------------

  /** At most `MaxAttempts` attempts are made, and the loop gives up only when all of them
      failed. */
  lemma {:induction false} FirstOpenFindsAnySuccess(opens: nat -> bool, k: nat)
    requires k < MaxAttempts && opens(k)
    ensures FirstOpen(opens, 0).Some? && FirstOpen(opens, 0).value <= k
  {
  }

  /** As written, `DeserializeAsync` fails unless the very first attempt opens the file: a
      failed first attempt is always rethrown, even when a later attempt opens the file. */
  lemma AsWrittenRetryNeverRecovers(file: Option<FileContent>, g: Guid, opens: nat -> bool,
                                    codec: GuidCodec, decode: seq<nat> -> Decoded)
    requires file.Some?
    ensures Deserialize(file, g, opens, false, codec, decode).Failure?
            <== !opens(0)
    ensures opens(0) ==> Deserialize(file, g, opens, false, codec, decode) == ReadValue(file.value, g, codec, decode)
  {
  }

  /** With the intended check, a file that opens on any of the `MaxAttempts` attempts is read. */
  lemma RetryRecoversWhenLaterAttemptOpens(file: Option<FileContent>, g: Guid, opens: nat -> bool,
                                           codec: GuidCodec, decode: seq<nat> -> Decoded, k: nat)
    requires file.Some? && k < MaxAttempts && opens(k)
    ensures Deserialize(file, g, opens, true, codec, decode) == ReadValue(file.value, g, codec, decode)
  {
    FirstOpenFindsAnySuccess(opens, k);
  }

  /** With the intended check, the read fails with `OpenFailed` only when all attempts failed. */
  lemma RetryGivesUpAfterMaxAttempts(file: Option<FileContent>, g: Guid, opens: nat -> bool,
                                     codec: GuidCodec, decode: seq<nat> -> Decoded)
    requires file.Some? && forall j :: 0 <= j < MaxAttempts ==> !opens(j)
    ensures Deserialize(file, g, opens, true, codec, decode) == Failure(OpenFailed)
    ensures Deserialize(file, g, opens, false, codec, decode) == Failure(OpenFailed)
  {
    assert FirstOpen(opens, 0).None?;
  }
}
