/** The mini log control (AppSource/Palladium.Controls/MiniLog.axaml.cs): it shows a stream
    of inlines in a text block, holding back trailing smart line breaks until a real inline
    follows them. The stream passes through a `BufferWithToggle` gate that opens when the
    control's template has been applied; the control keeps the gate's lock and queue in its
    own fields, and `MiniLogGate.GateIsBufferWithToggle` shows that they change as the gate
    of `ObservableExtensions` does. Streams are named by identifiers. */
module MiniLog {
  import opened Wrappers

  /** An inline of the text stream: a smart line break or any other inline. */
  datatype Inline = SmartLineBreak | Other(description: string)

  /** The stream bound to `TextStream`: the initial never-emitting stream, a stream given
      from outside, or the subject created by the `Inlines` getter. */
  datatype Stream = Never | External(id: nat) | InlinesSubject(id: nat)

  // ---------------------------------------------------------------------------------
  // What the text block shows
  // ---------------------------------------------------------------------------------

  /** How many of the first `j` inlines are shown: up to and including the last inline
      among them that is not a smart line break. */
  function ShownLengthUpTo(s: seq<Inline>, j: nat): (n: nat)
    requires j <= |s|
    ensures n <= j
  {
    if j == 0 then 0
    else if s[j - 1].SmartLineBreak? then ShownLengthUpTo(s, j - 1)
    else j
  }

  function ShownLength(s: seq<Inline>): (n: nat)
    ensures n <= |s|
  {
    ShownLengthUpTo(s, |s|)
  }

  /** The inlines with their trailing run of smart line breaks removed. */
  function DropTrailingBreaks(s: seq<Inline>): seq<Inline> {
    s[..ShownLength(s)]
  }

  /** The trailing run of smart line breaks. */
  function TrailingBreaks(s: seq<Inline>): seq<Inline> {
    s[ShownLength(s)..]
  }

  predicate AllBreaks(t: seq<Inline>) {
    forall i :: 0 <= i < |t| ==> t[i].SmartLineBreak?
  }

  /** The inlines split into a part that is empty or ends in a real inline, followed by
      smart line breaks only. */
  predicate IsTrailingSplit(s: seq<Inline>, shown: seq<Inline>, held: seq<Inline>) {
    s == shown + held
    && AllBreaks(held)
    && (|shown| == 0 || !shown[|shown| - 1].SmartLineBreak?)
  }

  lemma {:induction false} ShownLengthUpToSplits(s: seq<Inline>, j: nat)
    requires j <= |s|
    ensures var n := ShownLengthUpTo(s, j);
            (forall i :: n <= i < j ==> s[i].SmartLineBreak?) && (n == 0 || !s[n - 1].SmartLineBreak?)
  {
    if j > 0 && s[j - 1].SmartLineBreak? {
      ShownLengthUpToSplits(s, j - 1);
    }
  }

  /** Dropping the trailing breaks and keeping them split the stream as described above. */
  lemma TrailingSplit(s: seq<Inline>)
    ensures IsTrailingSplit(s, DropTrailingBreaks(s), TrailingBreaks(s))
  {
    ShownLengthUpToSplits(s, |s|);
    assert s == s[..ShownLength(s)] + s[ShownLength(s)..];
  }

  /** That split is the only one: nothing but the trailing run of breaks is held back. */
  lemma TrailingSplitUnique(s: seq<Inline>, shown: seq<Inline>, held: seq<Inline>)
    requires IsTrailingSplit(s, shown, held)
    ensures shown == DropTrailingBreaks(s) && held == TrailingBreaks(s)
  {
    var j := |s|;
    while j > |shown|
      invariant |shown| <= j <= |s|
      invariant ShownLengthUpTo(s, j) == ShownLength(s)
    {
      assert s[j - 1] == held[j - 1 - |shown|];
      j := j - 1;
    }
    if |shown| > 0 {
      assert s[|shown| - 1] == shown[|shown| - 1];
    }
    assert s[..|shown|] == shown;
  }

  /** Counting over a longer stream does not change the count over a prefix. */
  lemma {:induction false} ShownLengthUpToAppend(s: seq<Inline>, x: Inline, j: nat)
    requires j <= |s|
    ensures ShownLengthUpTo(s + [x], j) == ShownLengthUpTo(s, j)
  {
    if j > 0 {
      assert (s + [x])[j - 1] == s[j - 1];
      ShownLengthUpToAppend(s, x, j - 1);
    }
  }

  /** A smart line break is held back; a real inline releases everything before it. */
  lemma ShownLengthAppend(s: seq<Inline>, x: Inline)
    ensures ShownLength(s + [x]) == if x.SmartLineBreak? then ShownLength(s) else |s| + 1
  {
    ShownLengthUpToAppend(s, x, |s|);
  }

  lemma DropAfterAppend(s: seq<Inline>, x: Inline)
    ensures DropTrailingBreaks(s + [x]) == if x.SmartLineBreak? then DropTrailingBreaks(s) else s + [x]
    ensures TrailingBreaks(s + [x]) == if x.SmartLineBreak? then TrailingBreaks(s) + [x] else []
  {
    ShownLengthAppend(s, x);
    assert (s + [x])[..|s| + 1] == s + [x];
    if x.SmartLineBreak? {
      assert (s + [x])[..ShownLength(s)] == s[..ShownLength(s)];
      assert (s + [x])[ShownLength(s)..] == s[ShownLength(s)..] + [x];
    }
  }

  /** The stream split at `shownUpTo`: what follows is smart line breaks only, withheld in
      `held`, and what precedes is empty or ends in a real inline; the text block (if there
      is one) shows the inlines from `shownFrom` up to the split. */
  predicate Shows(hasTextBlock: bool, textBlock: seq<Inline>, held: seq<Inline>, delivered: seq<Inline>,
                  shownFrom: nat, shownUpTo: nat) {
    shownFrom <= shownUpTo <= |delivered|
    && held == delivered[shownUpTo..]
    && AllBreaks(held)
    && (shownUpTo == 0 || !delivered[shownUpTo - 1].SmartLineBreak?)
    && textBlock == (if hasTextBlock then delivered[shownFrom..shownUpTo] else [])
  }

  /** The split is where the trailing smart line breaks start, so the text block shows the
      stream without them. */
  lemma ShowsDropsTrailingBreaks(hasTextBlock: bool, textBlock: seq<Inline>, held: seq<Inline>, delivered: seq<Inline>,
                                 shownFrom: nat, shownUpTo: nat)
    requires Shows(hasTextBlock, textBlock, held, delivered, shownFrom, shownUpTo)
    ensures shownUpTo == ShownLength(delivered) && held == TrailingBreaks(delivered)
    ensures hasTextBlock ==> textBlock == DropTrailingBreaks(delivered)[shownFrom..]
  {
    assert delivered == delivered[..shownUpTo] + held;
    TrailingSplitUnique(delivered, delivered[..shownUpTo], held);
  }

  /** Withholding one more smart line break keeps the text block showing the stream
      without its trailing smart line breaks. */
  lemma HoldBreakKeepsShowing(hasTextBlock: bool, textBlock: seq<Inline>, held: seq<Inline>, delivered: seq<Inline>,
                              shownFrom: nat, shownUpTo: nat, x: Inline)
    requires Shows(hasTextBlock, textBlock, held, delivered, shownFrom, shownUpTo) && x.SmartLineBreak?
    ensures Shows(hasTextBlock, textBlock, held + [x], delivered + [x], shownFrom, shownUpTo)
  {
    var d := delivered + [x];
    assert d[shownUpTo..] == held + [x];
    assert d[shownFrom..shownUpTo] == delivered[shownFrom..shownUpTo];
    if shownUpTo > 0 {
      assert d[shownUpTo - 1] == delivered[shownUpTo - 1];
    }
  }

  /** Showing a real inline after the withheld breaks keeps the text block showing the
      stream without its trailing smart line breaks, which are now none. */
  lemma ShowInlineKeepsShowing(hasTextBlock: bool, textBlock: seq<Inline>, held: seq<Inline>, delivered: seq<Inline>,
                               shownFrom: nat, shownUpTo: nat, x: Inline)
    requires Shows(hasTextBlock, textBlock, held, delivered, shownFrom, shownUpTo) && !x.SmartLineBreak?
    ensures Shows(hasTextBlock, if hasTextBlock then textBlock + held + [x] else textBlock, [], delivered + [x],
                  shownFrom, |delivered| + 1)
  {
    var d := delivered + [x];
    assert d[shownFrom..|delivered| + 1] == delivered[shownFrom..shownUpTo] + held + [x];
  }

  // ---------------------------------------------------------------------------------
  // The control
  // ---------------------------------------------------------------------------------

  /** Which stream is bound and subscribed, the `Inlines` collection and the template. */
  datatype Wiring = Wiring(textStream: Option<Stream>, subscription: Option<Stream>, inlines: Option<nat>,
                           nextId: nat, hasTextBlock: bool, templateApplied: bool)

  class MiniLogControl {
    /** Whether the readiness signal replays itself to late subscribers. The control as
        written uses a plain subject, which does not (false). */
    const readyIsReplayed: bool
    var textStream: Option<Stream>
    /** The stream the current subscription listens to. */
    var subscription: Option<Stream>
    /** The `Inlines` collection, named by its subject's identifier, once created. */
    var inlines: Option<nat>
    var nextId: nat
    var hasTextBlock: bool
    var templateApplied: bool
    /** The inlines of the text block. */
    var TextBlockInlines: seq<Inline>
    /** The gate of the current subscription. */
    var gateUnlocked: bool
    var gateQueue: seq<Inline>
    /** The smart line breaks withheld so far. */
    var accumulatedLineBreaks: seq<Inline>
    /** What the gate has passed on to the current subscription. */
    ghost var Delivered: seq<Inline>
    /** How much of what is shown went to an earlier text block. */
    ghost var ShownFrom: nat
    /** Where the trailing smart line breaks of what was delivered start. */
    ghost var ShownUpTo: nat

    function State(): Wiring
      reads this
    {
      Wiring(textStream, subscription, inlines, nextId, hasTextBlock, templateApplied)
    }

    /** Everything the stream has moved: the text block, the gate, the withheld breaks. */
    ghost function Flow(): (seq<Inline>, bool, seq<Inline>, seq<Inline>, seq<Inline>, nat, nat)
      reads this
    {
      (TextBlockInlines, gateUnlocked, gateQueue, accumulatedLineBreaks, Delivered, ShownFrom, ShownUpTo)
    }

    /** The text block shows what has been delivered minus its trailing smart line breaks,
        which are withheld; a subscription is to the bound stream; an open gate holds
        nothing; the `Inlines` collection feeds the bound stream. */
    ghost predicate Valid()
      reads this
    {
      ValidFlow()
      && (subscription.Some? ==> subscription == textStream)
      && (inlines.Some? ==> textStream == Some(InlinesSubject(inlines.value)) && subscription == textStream)
      && FreshIds()
    }

    ghost predicate FreshIds()
      reads this
    {
      textStream.Some? && textStream.value.InlinesSubject? ==> textStream.value.id < nextId
    }

    ghost predicate ValidFlow()
      reads this
    {
      Shows(hasTextBlock, TextBlockInlines, accumulatedLineBreaks, Delivered, ShownFrom, ShownUpTo)
      && (subscription.None? ==> Delivered == [] && gateQueue == [] && accumulatedLineBreaks == [])
      && (gateUnlocked ==> gateQueue == [])
      && (!templateApplied ==> !gateUnlocked && !hasTextBlock)
    }

    constructor(readyIsReplayed: bool)
      ensures Valid() && this.readyIsReplayed == readyIsReplayed
      ensures State() == Wiring(Some(Never), None, None, 0, false, false)
      ensures TextBlockInlines == [] && Delivered == []
    {
      this.readyIsReplayed := readyIsReplayed;
      textStream := Some(Never);
      subscription := None;
      inlines := None;
      nextId := 0;
      hasTextBlock := false;
      templateApplied := false;
      TextBlockInlines := [];
      gateUnlocked := false;
      gateQueue := [];
      accumulatedLineBreaks := [];
      Delivered := [];
      ShownFrom := 0;
      ShownUpTo := 0;
    }

    /** The subscription's handler: a smart line break is queued; any other inline first
        adds the queued breaks in order, then itself, and the queue is emptied. */
    method Deliver(inline: Inline)
      requires Valid() && subscription.Some?
      modifies this`TextBlockInlines, this`accumulatedLineBreaks, this`Delivered, this`ShownUpTo
      ensures Valid()
      ensures Delivered == old(Delivered) + [inline]
      ensures TextBlockInlines == if hasTextBlock && !inline.SmartLineBreak? then old(TextBlockInlines) + old(accumulatedLineBreaks) + [inline]
                                  else old(TextBlockInlines)
      ensures accumulatedLineBreaks == if inline.SmartLineBreak? then old(accumulatedLineBreaks) + [inline] else []
    {
      if inline.SmartLineBreak? {
        HoldBreakKeepsShowing(hasTextBlock, TextBlockInlines, accumulatedLineBreaks, Delivered, ShownFrom, ShownUpTo, inline);
        accumulatedLineBreaks := accumulatedLineBreaks + [inline];
        Delivered := Delivered + [inline];
      } else {
        ShowInline(inline);
      }
    }

    /** A real inline: the withheld breaks, then the inline, go to the text block. */
    method ShowInline(inline: Inline)
      requires Shows(hasTextBlock, TextBlockInlines, accumulatedLineBreaks, Delivered, ShownFrom, ShownUpTo)
      requires !inline.SmartLineBreak?
      modifies this`TextBlockInlines, this`accumulatedLineBreaks, this`Delivered, this`ShownUpTo
      ensures Shows(hasTextBlock, TextBlockInlines, accumulatedLineBreaks, Delivered, ShownFrom, ShownUpTo)
      ensures Delivered == old(Delivered) + [inline]
      ensures TextBlockInlines == if hasTextBlock then old(TextBlockInlines) + old(accumulatedLineBreaks) + [inline] else old(TextBlockInlines)
      ensures accumulatedLineBreaks == []
    {
      ShowInlineKeepsShowing(hasTextBlock, TextBlockInlines, accumulatedLineBreaks, Delivered, ShownFrom, ShownUpTo, inline);
      ghost var shown := if hasTextBlock then TextBlockInlines + accumulatedLineBreaks + [inline] else TextBlockInlines;
      ShownUpTo := |Delivered| + 1;
      FlushLineBreaks();
      if hasTextBlock {
        TextBlockInlines := TextBlockInlines + [inline];
      }
      assert TextBlockInlines == shown;
      Delivered := Delivered + [inline];
    }

    /** Adds the withheld line breaks to the text block, in order, and forgets them. */
    method FlushLineBreaks()
      modifies this`TextBlockInlines, this`accumulatedLineBreaks
      ensures accumulatedLineBreaks == []
      ensures TextBlockInlines == if hasTextBlock then old(TextBlockInlines) + old(accumulatedLineBreaks) else old(TextBlockInlines)
    {
      for i := 0 to |accumulatedLineBreaks|
        invariant accumulatedLineBreaks == old(accumulatedLineBreaks)
        invariant TextBlockInlines == old(TextBlockInlines) + (if hasTextBlock then accumulatedLineBreaks[..i] else [])
      {
        if hasTextBlock {
          assert accumulatedLineBreaks[..i + 1] == accumulatedLineBreaks[..i] + [accumulatedLineBreaks[i]];
          TextBlockInlines := TextBlockInlines + [accumulatedLineBreaks[i]];
        }
      }
      assert accumulatedLineBreaks[..|accumulatedLineBreaks|] == accumulatedLineBreaks;
      accumulatedLineBreaks := [];
    }
    /** What the bound stream emits: dropped unless it is the subscribed stream, queued
        while the gate is locked and handled at once while it is open. */
    method Push(stream: Stream, inline: Inline)
      requires Valid()
      modifies this
      ensures Valid() && State() == old(State())
      ensures if subscription != Some(stream) then TextBlockInlines == old(TextBlockInlines) && Delivered == old(Delivered)
                                                     && gateQueue == old(gateQueue)
              else if !gateUnlocked then gateQueue == old(gateQueue) + [inline] && Delivered == old(Delivered)
                                         && TextBlockInlines == old(TextBlockInlines)
              else Delivered == old(Delivered) + [inline]
                   && TextBlockInlines == if hasTextBlock && !inline.SmartLineBreak? then old(TextBlockInlines) + old(accumulatedLineBreaks) + [inline]
                                  else old(TextBlockInlines)
      ensures gateUnlocked == old(gateUnlocked) && ShownFrom == old(ShownFrom)
    {
      if subscription == Some(stream) {
        if !gateUnlocked {
          gateQueue := gateQueue + [inline];
        } else {
          Deliver(inline);
        }
      }
    }

    /** Binding a stream: the old subscription and the `Inlines` collection are dropped,
        the text block is cleared and a new subscription starts with a locked gate, an
        empty queue of line breaks and nothing delivered. The gate opens at once only if
        the readiness signal is replayed and the template has been applied. */
    method UpdateTextBlockInlines()
      requires FreshIds() && (!templateApplied ==> !hasTextBlock)
      modifies this
      ensures textStream == old(textStream) && subscription == textStream && inlines == None
      ensures nextId == old(nextId) && hasTextBlock == old(hasTextBlock) && templateApplied == old(templateApplied)
      ensures TextBlockInlines == [] && Delivered == [] && gateQueue == [] && accumulatedLineBreaks == []
      ensures gateUnlocked == (textStream.Some? && readyIsReplayed && templateApplied)
      ensures Valid()
    {
      inlines := None;
      TextBlockInlines := [];
      subscription := textStream;
      gateUnlocked := textStream.Some? && readyIsReplayed && templateApplied;
      gateQueue := [];
      accumulatedLineBreaks := [];
      Delivered := [];
      ShownFrom := 0;
      ShownUpTo := 0;
    }

    /** Setting `TextStream` re-subscribes only when the value changes. */
    method SetTextStream(stream: Option<Stream>)
      requires Valid()
      requires stream.Some? && stream.value.InlinesSubject? ==> stream.value.id < nextId
      modifies this
      ensures Valid() && textStream == stream && nextId == old(nextId)
      ensures stream == old(textStream) ==> State() == old(State()) && Flow() == old(Flow())
      ensures stream != old(textStream) ==>
                subscription == stream && inlines == None && TextBlockInlines == []
                && Delivered == [] && gateQueue == [] && accumulatedLineBreaks == []
                && gateUnlocked == (stream.Some? && readyIsReplayed && templateApplied)
      ensures hasTextBlock == old(hasTextBlock) && templateApplied == old(templateApplied)
    {
      if stream != textStream {
        textStream := stream;
        UpdateTextBlockInlines();
      }
    }

    /** Applying the template finds the text block (or not); the first time, the readiness
        signal opens the gate, which hands on what it queued, in order. */
    method OnApplyTemplate(found: bool)
      requires Valid()
      modifies this
      ensures Valid() && templateApplied && hasTextBlock == found
      ensures State() == Wiring(old(textStream), old(subscription), old(inlines), old(nextId), found, true)
      ensures if !old(templateApplied) && subscription.Some?
              then gateUnlocked && gateQueue == [] && Delivered == old(Delivered) + old(gateQueue)
              else gateUnlocked == old(gateUnlocked) && gateQueue == old(gateQueue) && Delivered == old(Delivered)
      ensures ShownFrom == old(ShownUpTo)
    {
      var wasApplied := templateApplied;
      UseTemplate(found);
      if !wasApplied && subscription.Some? {
        OpenGate();
      }
    }

    /** The template's text block, if found, starts empty, and the readiness signal has
        been sent. */
    method UseTemplate(found: bool)
      requires Valid()
      modifies this
      ensures textStream == old(textStream) && subscription == old(subscription) && inlines == old(inlines)
      ensures nextId == old(nextId) && Delivered == old(Delivered)
      ensures gateUnlocked == old(gateUnlocked) && gateQueue == old(gateQueue)
      ensures Valid() && hasTextBlock == found && templateApplied && TextBlockInlines == []
      ensures ShownFrom == ShownUpTo && ShownUpTo == old(ShownUpTo)
    {
      hasTextBlock := found;
      TextBlockInlines := [];
      ShownFrom := ShownUpTo;
      templateApplied := true;
    }

    /** The readiness signal reaching a locked gate: what it queued is handed on in
        arrival order, and it stays open. */
    method OpenGate()
      requires Valid() && subscription.Some? && templateApplied && !gateUnlocked
      modifies this
      ensures Valid() && ShownFrom == old(ShownFrom)
      ensures textStream == old(textStream) && subscription == old(subscription) && inlines == old(inlines)
      ensures nextId == old(nextId) && hasTextBlock == old(hasTextBlock) && templateApplied == old(templateApplied)
      ensures gateUnlocked && gateQueue == [] && Delivered == old(Delivered) + old(gateQueue)
    {
      DeliverAll(gateQueue);
      gateQueue := [];
      gateUnlocked := true;
    }

    /** Hands each of `queued` to the subscription's handler, in order. */
    method DeliverAll(queued: seq<Inline>)
      requires Valid() && subscription.Some?
      modifies this`TextBlockInlines, this`accumulatedLineBreaks, this`Delivered, this`ShownUpTo
      ensures Valid() && Delivered == old(Delivered) + queued
    {
      ghost var before := Delivered;
      for i := 0 to |queued|
        invariant Valid() && Delivered == before + queued[..i]
      {
        Deliver(queued[i]);
        assert queued[..i + 1] == queued[..i] + [queued[i]];
      }
      assert queued[..|queued|] == queued;
    }

    /** The `Inlines` getter: created once, by binding a new subject as the text stream;
        every later access returns the same collection and changes nothing. */
    method GetInlines() returns (collection: nat)
      requires Valid()
      modifies this
      ensures Valid() && inlines == Some(collection)
      ensures old(inlines).Some? ==> collection == old(inlines).value && State() == old(State()) && Flow() == old(Flow())
      ensures old(inlines).None? ==>
                collection == old(nextId) && nextId == old(nextId) + 1
                && textStream == Some(InlinesSubject(collection)) && subscription == textStream
                && TextBlockInlines == [] && Delivered == [] && gateQueue == [] && accumulatedLineBreaks == []
                && gateUnlocked == (readyIsReplayed && templateApplied)
      ensures hasTextBlock == old(hasTextBlock) && templateApplied == old(templateApplied)
    {
      if inlines.Some? {
        return inlines.value;
      }
      collection := nextId;
      nextId := nextId + 1;
      SetTextStream(Some(InlinesSubject(collection)));
      inlines := Some(collection);
    }

    /** Adding to the `Inlines` collection emits the inline on the collection's subject. */
    method AddToInlines(inline: Inline)
      requires Valid() && inlines.Some?
      modifies this
      ensures Valid() && State() == old(State())
      ensures gateUnlocked ==> Delivered == old(Delivered) + [inline]
                               && TextBlockInlines == if hasTextBlock && !inline.SmartLineBreak? then old(TextBlockInlines) + old(accumulatedLineBreaks) + [inline]
                                  else old(TextBlockInlines)
      ensures !gateUnlocked ==> gateQueue == old(gateQueue) + [inline] && Delivered == old(Delivered)
                                && TextBlockInlines == old(TextBlockInlines)
      ensures gateUnlocked == old(gateUnlocked) && ShownFrom == old(ShownFrom)
    {
      Push(InlinesSubject(inlines.value), inline);
    }
  }

  /** A stream bound before the template is applied is shown once the template is there,
      without its trailing smart line break. */
  method StreamBeforeTemplate() returns (shown: seq<Inline>)
    ensures shown == [Other("Hello "), SmartLineBreak, Other("world")]
  {
    var control := new MiniLogControl(false);
    control.SetTextStream(Some(External(1)));
    control.Push(External(1), Other("Hello "));
    control.Push(External(1), SmartLineBreak);
    control.Push(External(1), Other("world"));
    control.Push(External(1), SmartLineBreak);
    var sent := [Other("Hello "), SmartLineBreak, Other("world")];
    assert control.gateQueue == sent + [SmartLineBreak];
    assert control.Delivered == [] && control.ShownUpTo == 0;
    control.OnApplyTemplate(true);
    ShowsDropsTrailingBreaks(control.hasTextBlock, control.TextBlockInlines, control.accumulatedLineBreaks,
                             control.Delivered, control.ShownFrom, control.ShownUpTo);
    assert control.Delivered == sent + [SmartLineBreak];
    DropAfterAppend(sent, SmartLineBreak);
    assert sent == [Other("Hello "), SmartLineBreak] + [Other("world")];
    DropAfterAppend([Other("Hello "), SmartLineBreak], Other("world"));
    shown := control.TextBlockInlines;
  }

  /** As written, a stream bound after the template was applied is never shown: its gate
      waits for a readiness signal that has already completed. */
  method LateTextStreamNeverShown() returns (shown: seq<Inline>)
    ensures shown == []
  {
    var control := new MiniLogControl(false);
    control.OnApplyTemplate(true);
    control.SetTextStream(Some(External(1)));
    control.Push(External(1), Other("Hello"));
    shown := control.TextBlockInlines;
  }

  /** With a readiness signal that replays itself, the same late stream is shown. */
  method LateTextStreamShownWhenReadyReplays() returns (shown: seq<Inline>)
    ensures shown == [Other("Hello")]
  {
    var control := new MiniLogControl(true);
    control.OnApplyTemplate(true);
    control.SetTextStream(Some(External(1)));
    control.Push(External(1), Other("Hello"));
    assert control.Delivered == [Other("Hello")];
    shown := control.TextBlockInlines;
  }

  /** Content added through `Inlines` before the template is applied is shown after it,
      and the getter returns the same collection every time. */
  method InlinesBeforeTemplate() returns (shown: seq<Inline>, same: bool)
    ensures shown == [Other("Hello")] && same
  {
    var control := new MiniLogControl(false);
    var first := control.GetInlines();
    control.AddToInlines(Other("Hello"));
    var second := control.GetInlines();
    assert control.Delivered == [] && control.ShownUpTo == 0;
    control.OnApplyTemplate(true);
    assert control.Delivered == [] + [Other("Hello")];
    ShowsDropsTrailingBreaks(control.hasTextBlock, control.TextBlockInlines, control.accumulatedLineBreaks,
                             control.Delivered, control.ShownFrom, control.ShownUpTo);
    DropAfterAppend([], Other("Hello"));
    shown := control.TextBlockInlines;
    same := first == second;
  }
}

/** The mini log's gate as the `BufferWithToggle` gate of `ObservableExtensions`. */
module MiniLogGate {
  import opened Wrappers
  import opened MiniLog
  import Rx
  import ObservableExtensions

  /** Queued inlines as the items the `BufferWithToggle` gate queues for plain values. */
  function ValueItems(queue: seq<Inline>): (r: seq<ObservableExtensions.BufferedItem<Inline>>)
    ensures |r| == |queue|
    ensures forall i :: 0 <= i < |queue| ==> r[i] == ObservableExtensions.BufferedItem(queue[i], None, false)
  {
    if |queue| == 0 then [] else ValueItems(queue[..|queue| - 1]) + [ObservableExtensions.BufferedItem(queue[|queue| - 1], None, false)]
  }

  /** The control's gate fields as the `BufferWithToggle` gate they stand for: the lock, the
      queued inlines, and what the gate has passed on as `OnNext` notifications. */
  function AsGate(unlocked: bool, queue: seq<Inline>, delivered: seq<Inline>): ObservableExtensions.Gate<Inline> {
    ObservableExtensions.Gate(unlocked, ValueItems(queue), Rx.OnNexts(delivered))
  }

  /** The control's gate is the `BufferWithToggle` gate: an inline is queued while the gate is
      locked and passed on while it is open, as `Push` does, and unlocking passes on the
      queue in order and empties it, as `OpenGate` does. */
  lemma GateIsBufferWithToggle(unlocked: bool, queue: seq<Inline>, delivered: seq<Inline>, x: Inline, defaultValue: Inline)
    requires unlocked ==> queue == []
    ensures ObservableExtensions.Feed(AsGate(unlocked, queue, delivered), ObservableExtensions.Source(Rx.OnNext(x)), defaultValue)
            == (if unlocked then AsGate(true, queue, delivered + [x]) else AsGate(false, queue + [x], delivered))
    ensures !unlocked ==>
              ObservableExtensions.Feed(AsGate(false, queue, delivered), ObservableExtensions.Toggle(true), defaultValue)
              == AsGate(true, [], delivered + queue)
  {
    Rx.OnNextsAppend(delivered, [x]);
    assert ValueItems(queue + [x]) == ValueItems(queue) + [ObservableExtensions.BufferedItem(x, None, false)];
    if !unlocked {
      var items := ValueItems(queue);
      ObservableExtensions.FlushOfValues(items);
      assert ObservableExtensions.QueuedValues(items) == queue;
      Rx.OnNextsAppend(delivered, queue);
    }
  }
}
