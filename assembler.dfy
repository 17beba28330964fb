/**
  The one-slot message assembler of the Hybi connection: data frames are
  appended to the open message, or start a new one, and a message leaves the
  slot the moment it is finalised.
*/
module Assembler {
  import opened Wrappers
  import opened Frames

  /** The slot holds nothing, or a message still waiting for fragments. */
  predicate SlotOk(slot: Option<Message>)
  {
    slot.None? || IsOpen(slot.value)
  }

  function FramesOf(m: Option<Message>): seq<Frame>
  {
    if m.None? then [] else m.value.frames
  }

  /** The slot after one data frame, and the message dispatched by it, if any. */
  datatype Step = Step(slot: Option<Message>, out: Option<Message>)

  /** Append to an open, unfinalised message whatever the frame's opcode; otherwise start anew. */
  function Accept(slot: Option<Message>, f: Frame): Message
  {
    if slot.Some? && !slot.value.finalised then TakeFrame(slot.value, f) else FromFrame(f)
  }

  function AssembleStep(slot: Option<Message>, f: Frame): Step
  {
    var m := Accept(slot, f);
    if m.finalised then Step(None, Some(m)) else Step(Some(m), None)
  }

  /** A frame extends the open message, or else begins a message of its own. */
  lemma AcceptAppendsOrStarts(slot: Option<Message>, f: Frame)
    ensures slot.Some? && !slot.value.finalised ==> Accept(slot, f).frames == slot.value.frames + [f]
    ensures !(slot.Some? && !slot.value.finalised) ==> Accept(slot, f).frames == [f]
    ensures Accept(slot, f).finalised == f.fin
  {
  }

  /**
    One step keeps the slot invariant, dispatches exactly when the frame is
    final (and then empties the slot), dispatches only complete messages, and
    loses, duplicates or reorders no frame.
  */
  lemma StepPreservesSlot(slot: Option<Message>, f: Frame)
    requires SlotOk(slot)
    ensures var s := AssembleStep(slot, f);
      SlotOk(s.slot)
      && (s.out.Some? <==> f.fin)
      && (s.out.Some? ==> s.slot.None? && IsComplete(s.out.value))
      && FramesOf(s.out) + FramesOf(s.slot) == FramesOf(slot) + [f]
  {
    StepConserves(slot, f);
    var m := Accept(slot, f);
    if slot.Some? {
      assert m.frames[..|m.frames| - 1] == slot.value.frames;
    } else {
      assert m.frames[..|m.frames| - 1] == [];
    }
  }

  datatype Assembly = Assembly(slot: Option<Message>, messages: seq<Message>)

  /** The slot and the dispatched messages after a sequence of data frames. */
  function Assemble(slot: Option<Message>, fs: seq<Frame>): Assembly
    decreases |fs|
  {
    if fs == [] then Assembly(slot, [])
    else
      var s := AssembleStep(slot, fs[0]);
      var rest := Assemble(s.slot, fs[1..]);
      Assembly(rest.slot, Dispatched(s.out) + rest.messages)
  }

  /** The messages a step dispatched, as a sequence. */
  function Dispatched(out: Option<Message>): seq<Message>
  {
    if out.Some? then [out.value] else []
  }

  /** Assembling a frame and then the rest. */
  lemma AssembleCons(slot: Option<Message>, f: Frame, fs: seq<Frame>)
    ensures var s := AssembleStep(slot, f); var rest := Assemble(s.slot, fs);
      Assemble(slot, [f] + fs) == Assembly(rest.slot, Dispatched(s.out) + rest.messages)
  {
    assert ([f] + fs)[0] == f && ([f] + fs)[1..] == fs;
  }

  function Flatten(ms: seq<Message>): seq<Frame>
  {
    if ms == [] then [] else ms[0].frames + Flatten(ms[1..])
  }

  function FinCount(fs: seq<Frame>): nat
  {
    if fs == [] then 0 else (if fs[0].fin then 1 else 0) + FinCount(fs[1..])
  }

  predicate AllComplete(ms: seq<Message>)
  {
    forall i :: 0 <= i < |ms| ==> IsComplete(ms[i])
  }

  /**
    Over any sequence of data frames: one complete message is dispatched per
    final frame and the slot invariant holds at the end.
  */
  lemma {:induction false} AssembleShape(slot: Option<Message>, fs: seq<Frame>)
    requires SlotOk(slot)
    ensures SlotOk(Assemble(slot, fs).slot)
    ensures AllComplete(Assemble(slot, fs).messages)
    ensures |Assemble(slot, fs).messages| == FinCount(fs)
    decreases |fs|
  {
    if fs != [] {
      var s := AssembleStep(slot, fs[0]);
      StepPreservesSlot(slot, fs[0]);
      AssembleShape(s.slot, fs[1..]);
      var rest := Assemble(s.slot, fs[1..]);
      var head := Dispatched(s.out);
      var ms := head + rest.messages;
      assert Assemble(slot, fs).messages == ms;
      forall i | 0 <= i < |ms| ensures IsComplete(ms[i]) {
        if i >= |head| {
          assert ms[i] == rest.messages[i - |head|];
        }
      }
    }
  }

  /** One step moves the frame into the slot or out with the dispatched message, never elsewhere. */
  lemma StepConserves(slot: Option<Message>, f: Frame)
    requires slot.None? || !slot.value.finalised
    ensures var s := AssembleStep(slot, f);
      (s.slot.None? || !s.slot.value.finalised)
      && FramesOf(s.out) + FramesOf(s.slot) == FramesOf(slot) + [f]
  {
  }

  /**
    Over any sequence of data frames, the dispatched messages followed by what
    is left in the slot are exactly the frames received, in order: nothing is
    lost, duplicated or reordered.
  */
  lemma FlattenCons(m: Message, ms: seq<Message>, slot: Option<Message>, before: seq<Frame>, after: seq<Frame>)
    requires Flatten(ms) + FramesOf(slot) == before + after
    ensures Flatten([m] + ms) + FramesOf(slot) == m.frames + before + after
  {
    assert ([m] + ms)[0] == m;
    assert ([m] + ms)[1..] == ms;
    assert Flatten([m] + ms) == m.frames + Flatten(ms);
    assert (m.frames + Flatten(ms)) + FramesOf(slot) == m.frames + (Flatten(ms) + FramesOf(slot));
  }

  lemma {:induction false} AssembleConserves(slot: Option<Message>, fs: seq<Frame>)
    requires slot.None? || !slot.value.finalised
    ensures var a := Assemble(slot, fs);
      Flatten(a.messages) + FramesOf(a.slot) == FramesOf(slot) + fs
    decreases |fs|
  {
    if fs != [] {
      var f := fs[0];
      var s := AssembleStep(slot, f);
      StepConserves(slot, f);
      AssembleConserves(s.slot, fs[1..]);
      var rest := Assemble(s.slot, fs[1..]);
      assert fs == [f] + fs[1..];
      if s.out.Some? {
        FlattenCons(s.out.value, rest.messages, rest.slot, [], fs[1..]);
      } else {
        assert [] + rest.messages == rest.messages;
      }
    }
  }

  /** Two fragments, the second final, make one message dispatched after the second. */
  lemma TwoFragments()
    ensures var a := Assemble(None, [Frame(TEXT, false, "ab"), Frame(CONTINUATION, true, "cd")]);
      a.slot == None
      && a.messages == [Message([Frame(TEXT, false, "ab"), Frame(CONTINUATION, true, "cd")], true)]
      && Payloads(a.messages[0].frames) == "abcd"
  {
    var f1, f2 := Frame(TEXT, false, "ab"), Frame(CONTINUATION, true, "cd");
    var open := Some(Message([f1], false));
    assert AssembleStep(None, f1) == Step(open, None);
    assert [f1] + [f2] == [f1, f2];
    assert AssembleStep(open, f2) == Step(None, Some(Message([f1, f2], true)));
    assert Assemble(None, [f1, f2]) == Assembly(Assemble(open, [f2]).slot, Assemble(open, [f2]).messages);
    assert [f2][1..] == [];
    assert Assemble(open, [f2]) == Assembly(None, [Message([f1, f2], true)]);
    assert [f1, f2][1..] == [f2];
    assert Payloads([f2]) == "cd";
    assert Payloads([f1, f2]) == "ab" + Payloads([f2]);
  }
}
