/** What sending a frame and sending a message do to the transport. */
module Sending {
  import opened Wrappers
  import opened Frames
  import opened Transport

  datatype SendOutcome = SendOutcome(view: SocketView, ok: bool)

  /** `sendFrame`: one write of the frame's encoding; false iff that write failed. */
  function SendFrameSpec(v: SocketView, f: Frame): SendOutcome
  {
    SendOutcome(Written(v, Encoded(f)), Answer(v.pending, 0))
  }

  /** `sendMessage`: the frames in order, giving up at the first failed write. */
  function SendAll(v: SocketView, fs: seq<Frame>): SendOutcome
    decreases |fs|
  {
    if fs == [] then SendOutcome(v, true)
    else
      var first := SendFrameSpec(v, fs[0]);
      if !first.ok then first else SendAll(first.view, fs[1..])
  }

  /** The trace entries of writing `fs` in order. */
  function WroteAll(fs: seq<Frame>): seq<Event>
  {
    if fs == [] then [] else [Wrote(Encoded(fs[0]))] + WroteAll(fs[1..])
  }

  function Drop(pending: seq<bool>, k: nat): seq<bool>
  {
    if k >= |pending| then [] else pending[k..]
  }

  /** The next `n` writes all succeed. */
  predicate AllAnswered(pending: seq<bool>, n: int)
  {
    forall i: nat :: i < n ==> Answer(pending, i)
  }

  /**
    Sending a message writes a prefix of its frames, in order, and nothing
    else; it stops right after the first failed write, and it reports success
    exactly when every write succeeded, in which case all frames were written.
  */
  lemma {:induction false} SendAllStopsAtFirstFailure(v: SocketView, fs: seq<Frame>)
    ensures var o := SendAll(v, fs); var k := |o.view.trace| - |v.trace|;
      0 <= k <= |fs|
      && o.view.trace == v.trace + WroteAll(fs[..k])
      && o.view.pending == Drop(v.pending, k)
      && (o.ok <==> AllAnswered(v.pending, |fs|))
      && (o.ok ==> k == |fs|)
      && (!o.ok ==> 0 < k && AllAnswered(v.pending, k - 1) && !Answer(v.pending, k - 1))
    decreases |fs|
  {
    if fs == [] {
      assert fs[..0] == [];
    } else {
      var first := SendFrameSpec(v, fs[0]);
      if !first.ok {
        assert fs[..1] == [fs[0]];
        assert WroteAll([fs[0]]) == [Wrote(Encoded(fs[0]))];
      } else {
        SendAllStopsAtFirstFailure(first.view, fs[1..]);
        var o := SendAll(first.view, fs[1..]);
        var k := |o.view.trace| - |first.view.trace|;
        assert fs[..k + 1] == [fs[0]] + fs[1..][..k];
        assert fs[..k + 1][1..] == fs[1..][..k];
        assert WroteAll(fs[..k + 1]) == [Wrote(Encoded(fs[0]))] + WroteAll(fs[1..][..k]);
        ConcatAssoc(v.trace, [Wrote(Encoded(fs[0]))], WroteAll(fs[1..][..k]));
        forall i: nat ensures Answer(first.view.pending, i) == Answer(v.pending, i + 1) {
          AnswerConsume(v.pending, i);
        }
        assert AllAnswered(v.pending, |fs|) <==> AllAnswered(first.view.pending, |fs| - 1) by {
          if AllAnswered(first.view.pending, |fs| - 1) {
            forall i: nat | i < |fs| ensures Answer(v.pending, i) {
              if i > 0 { assert Answer(first.view.pending, i - 1); }
            }
          }
        }
        if !o.ok {
          assert AllAnswered(v.pending, k) by {
            forall i: nat | i < k ensures Answer(v.pending, i) {
              if i > 0 { assert Answer(first.view.pending, i - 1); }
            }
          }
        }
      }
    }
  }
}
