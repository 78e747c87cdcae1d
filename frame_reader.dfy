/** The reassembly reader as the source runs it: a fixed-size buffer filled in
    place, the count of bytes still missing, and what to do when the buffer is full.
    In the source these are the fields `buffer`, `len_remaining` and
    `buffer_complete_callback` of the client object; only socket_data_handler and
    the three functions it calls touch them. */
module FrameReader {
  import opened Framing

  class Reader {
    var buffer: array<Byte>
    var lenRemaining: nat
    var awaiting: Awaiting

    ghost predicate Valid()
      reads this
    {
      lenRemaining <= buffer.Length
    }

    /** The abstract state: the bytes of the awaited unit received so far are the
        buffer up to `buffer.Length - lenRemaining`. */
    ghost function State(): (st: ReadState)
      requires Valid()
      reads this, buffer
      ensures WellFormed(st)
    {
      ReadState(awaiting, buffer.Length, buffer[..buffer.Length - lenRemaining])
    }

    /** The client constructor's `setup_read(6, header_complete_callback)`. */
    constructor ()
      ensures Valid() && fresh(buffer)
      ensures State() == Initial
    {
      buffer := new Byte[6];
      lenRemaining := 6;
      awaiting := AwaitHeader;
    }

    /** `setup_read(length, fn)`: a fresh buffer of that length, all of it missing. */
    method SetupRead(length: nat, next: Awaiting)
      modifies this
      ensures Valid() && fresh(buffer)
      ensures buffer.Length == length && lenRemaining == length && awaiting == next
      ensures State() == ReadState(next, length, [])
    {
      buffer := new Byte[length];
      lenRemaining := length;
      awaiting := next;
    }

    /** Buffer.copy of `amount` bytes of `source` from `offset` into the missing
        part of the buffer. */
    method CopyIn(source: seq<Byte>, offset: nat, amount: nat)
      requires Valid() && offset + amount <= |source| && amount <= lenRemaining
      modifies buffer, this`lenRemaining
      ensures Valid() && lenRemaining == old(lenRemaining) - amount
      ensures State() == ReadState(awaiting, buffer.Length, old(State().got) + source[offset..offset + amount])
    {
      var start := buffer.Length - lenRemaining;
      forall i | 0 <= i < amount {
        buffer[start + i] := source[offset + i];
      }
      lenRemaining := lenRemaining - amount;
      assert buffer[..start + amount] == old(buffer[..start]) + source[offset..offset + amount];
    }

    /** The `len_remaining == 0` branch: header_complete_callback parses the
        header and awaits a body of that length (a header that does not parse
        throws: `ok` is false and nothing changes); data_complete_callback hands
        on the body and awaits a six-byte header. */
    method Complete(ghost rest: seq<Byte>) returns (emitted: seq<seq<Byte>>, ok: bool)
      requires Valid() && lenRemaining == 0
      modifies this
      ensures Valid()
      ensures ok ==> buffer != old(buffer) && fresh(buffer)
      ensures !ok ==> unchanged(this) && emitted == []
      ensures ok ==> Phase(State()) <= 1 && (old(awaiting) == AwaitBody ==> Phase(State()) == 0)
      ensures Continue(old(State()), rest) ==
        if ok then Prepend(emitted, Run(State(), rest)) else RunResult(emitted, State(), false)
    {
      assert buffer[..] == State().got;
      if awaiting == AwaitHeader {
        var len := ParseHeader(buffer[..]);
        if len.None? {
          return [], false;
        }
        SetupRead(len.value, AwaitBody);
        emitted, ok := [], true;
      } else {
        emitted, ok := [buffer[..]], true;
        SetupRead(6, AwaitHeader);
      }
    }

    /** One iteration of the loop in socket_data_handler: copy
        `min(len_remaining, bytes left)` bytes from `offset`, then complete the
        buffer when it is full. */
    method Step(source: seq<Byte>, offset: nat) returns (next: nat, emitted: seq<seq<Byte>>, ok: bool)
      requires Valid() && offset < |source|
      modifies this, buffer
      ensures Valid() && offset <= next <= |source|
      ensures buffer == old(buffer) || fresh(buffer)
      ensures ok ==> 2 * (|source| - next) + Phase(State()) < 2 * (|source| - offset) + Phase(old(State()))
      ensures Run(old(State()), source[offset..]) ==
        if ok then Prepend(emitted, Run(State(), source[next..])) else RunResult(emitted, State(), false)
    {
      ghost var st := State();
      ghost var input := source[offset..];
      var amount := Min(lenRemaining, |source| - offset);
      CopyIn(source, offset, amount);
      assert input[..amount] == source[offset..offset + amount];
      next := offset + amount;
      assert input[amount..] == source[next..];
      RunStep(st, input);
      ghost var mid := State();
      assert Run(st, input) == Continue(mid, source[next..]);
      if lenRemaining == 0 {
        emitted, ok := Complete(source[next..]);
      } else {
        assert next == |source| && Phase(mid) == 0;
        emitted, ok := [], true;
      }
    }

    /** `socket_data_handler(data)`: the result is the one `Run` describes: the
        bodies handed on, the state left behind, and whether a header failed to
        parse. */
    method Feed(source: seq<Byte>) returns (delivered: seq<seq<Byte>>, ok: bool)
      requires Valid()
      modifies this, buffer
      ensures Valid()
      ensures RunResult(delivered, State(), ok) == Run(old(State()), source)
    {
      ghost var st0 := State();
      var offset := 0;
      delivered := [];
      ok := true;
      while offset < |source|
        invariant Valid()
        invariant 0 <= offset <= |source|
        invariant buffer == old(buffer) || fresh(buffer)
        invariant Run(st0, source) == Prepend(delivered, Run(State(), source[offset..]))
        decreases 2 * (|source| - offset) + Phase(State())
      {
        var emitted;
        offset, emitted, ok := Step(source, offset);
        delivered := delivered + emitted;
        if !ok {
          return;
        }
      }
    }
  }

  /** Bodies already delivered, followed by a further result. */
  function Prepend(done: seq<seq<Byte>>, r: RunResult): RunResult {
    RunResult(done + r.out, r.state, r.ok)
  }

  /** One iteration of the copy loop, as Run takes it. */
  lemma RunStep(st: ReadState, input: seq<Byte>)
    requires WellFormed(st) && |input| > 0
    ensures var k := Min(st.size - |st.got|, |input|);
      Run(st, input) == Continue(ReadState(st.awaiting, st.size, st.got + input[..k]), input[k..])
  {
  }
}
