/** buffered_perf.c: a fixed buffer in front of an adversarial write(2). */
module BufferedWriter {

  type Byte = x: int | 0 <= x < 256

  /** What one call of write does: take at most n bytes, return 0, fail with EAGAIN or EINTR, or
      fail for good. */
  datatype Outcome = Take(n: nat) | Zero | Retry | Hard

  /** Short writes and retryable errors only. */
  predicate Benign(plan: seq<Outcome>) {
    forall i :: 0 <= i < |plan| ==> plan[i].Retry? || (plan[i].Take? && plan[i].n > 0)
  }

  datatype Delivery = Delivery(bytes: seq<Byte>, result: int, rest: seq<Outcome>)

  /** write_retry on a descriptor that answers by `plan`, and takes everything once the plan is
      used up: the bytes that get through, the return value, and the unused plan. */
  function Deliver(plan: seq<Outcome>, data: seq<Byte>): Delivery
    decreases |plan|
  {
    if plan == [] then Delivery(data, |data|, [])
    else match plan[0]
      case Retry => Deliver(plan[1..], data)
      case Hard => Delivery([], -1, plan[1..])
      case Zero => Delivery([], 0, plan[1..])
      case Take(n) =>
        if n == 0 || data == [] then Delivery([], 0, plan[1..])
        else if n >= |data| then Delivery(data, |data|, plan[1..])
        else
          Prepend(data[..n], Deliver(plan[1..], data[n..]))
  }

  /** What a delivery looks like to a caller that has already sent `sent`. */
  function Prepend(sent: seq<Byte>, d: Delivery): Delivery {
    Delivery(sent + d.bytes, if d.result < 0 then -1 else |sent| + d.result, d.rest)
  }

  lemma PrependTwice(a: seq<Byte>, b: seq<Byte>, d: Delivery)
    requires d.result >= -1
    ensures Prepend(a, Prepend(b, d)) == Prepend(a + b, d)
  {
    assert a + (b + d.bytes) == a + b + d.bytes;
  }

  /** Whatever the descriptor does, a prefix of the data gets through, and the return value is its
      length unless there was a hard error. */
  lemma {:induction false} DeliversPrefix(plan: seq<Outcome>, data: seq<Byte>)
    ensures var d := Deliver(plan, data);
      d.bytes <= data && (d.result == |d.bytes| || d.result == -1)
    decreases |plan|
  {
    if plan != [] {
      match plan[0]
      case Retry => DeliversPrefix(plan[1..], data);
      case Take(n) =>
        if 0 < n < |data| {
          DeliversPrefix(plan[1..], data[n..]);
        }
      case _ =>
    }
  }

  /** How much the answers take if they are all short writes and retryable errors. */
  function Amount(plan: seq<Outcome>): nat {
    if plan == [] then 0 else (if plan[0].Take? then plan[0].n else 0) + Amount(plan[1..])
  }

  /** A descriptor that answers benignly for k answers and then closes or fails: if those k take all
      of the data it gets through; otherwise just what they take does, and the result is its length
      where the descriptor has closed and -1 where it has failed. */
  lemma {:induction false} StopsExactly(plan: seq<Outcome>, data: seq<Byte>, k: nat)
    requires k < |plan| && Benign(plan[..k]) && data != []
    requires plan[k].Zero? || plan[k].Hard? || plan[k] == Take(0)
    ensures var d, amount := Deliver(plan, data), Amount(plan[..k]);
      if amount >= |data| then d.bytes == data && d.result == |data|
      else d.bytes == data[..amount] && d.result == if plan[k].Hard? then -1 else amount
    decreases k
  {
    if k > 0 {
      assert plan[..k][0] == plan[0] && plan[..k][1..] == plan[1..][..k - 1];
      assert Benign(plan[1..][..k - 1]);
      match plan[0]
      case Retry => StopsExactly(plan[1..], data, k - 1);
      case Take(n) =>
        if n < |data| {
          StopsExactly(plan[1..], data[n..], k - 1);
          var rest := Amount(plan[..k][1..]);
          if rest < |data| - n {
            assert data[..n] + data[n..][..rest] == data[..n + rest];
          }
        }
    }
  }

  /** With short writes and retryable errors only, everything gets through. */
  lemma {:induction false} DeliversAll(plan: seq<Outcome>, data: seq<Byte>)
    requires Benign(plan)
    ensures var d := Deliver(plan, data);
      d.bytes == data && d.result == |data| && Benign(d.rest)
    decreases |plan|
  {
    if plan != [] {
      assert Benign(plan[1..]);
      match plan[0]
      case Retry => DeliversAll(plan[1..], data);
      case Take(n) =>
        if n < |data| {
          DeliversAll(plan[1..], data[n..]);
        }
    }
  }

  /** One call of write on `bytes` returns r, with errno retryable or not, and plan' remains. */
  ghost predicate Answers(plan: seq<Outcome>, bytes: seq<Byte>, r: int, retry: bool, plan': seq<Outcome>) {
    if plan == [] then r == |bytes| && plan' == []
    else plan' == plan[1..] && match plan[0]
      case Take(n) => r == if n < |bytes| then n else |bytes|
      case Zero => r == 0
      case Retry => r == -1 && retry
      case Hard => r == -1 && !retry
  }

  lemma DeliverStep(plan: seq<Outcome>, data: seq<Byte>, r: int, retry: bool, plan': seq<Outcome>)
    requires Answers(plan, data, r, retry, plan')
    ensures -1 <= r <= |data|
    ensures Deliver(plan, data) ==
            if r == 0 then Delivery([], 0, plan')
            else if r < 0 then if retry then Deliver(plan', data) else Delivery([], -1, plan')
            else if r == |data| then Delivery(data, |data|, plan')
            else Prepend(data[..r], Deliver(plan', data[r..]))
    ensures r == |data| || |plan'| < |plan|
  {
  }

  lemma ResultBound(plan: seq<Outcome>, data: seq<Byte>)
    ensures Deliver(plan, data).result >= -1
  {
    DeliversPrefix(plan, data);
  }

  /** An open descriptor: what it has taken so far and how it will answer. */
  class Descriptor {
    var taken: seq<Byte>
    var plan: seq<Outcome>
    /** How often write_retry has been called on it. */
    ghost var requests: nat

    constructor (plan: seq<Outcome>)
      ensures taken == [] && this.plan == plan && requests == 0
    {
      taken, this.plan, requests := [], plan, 0;
    }

    /** write(2); `retry` tells EAGAIN and EINTR from other errors. */
    method Write(bytes: seq<Byte>) returns (r: int, retry: bool)
      modifies this`taken, this`plan
      ensures Answers(old(plan), bytes, r, retry, plan) && -1 <= r <= |bytes|
      ensures taken == old(taken) + (if r > 0 then bytes[..r] else [])
    {
      r, retry := |bytes|, false;
      if plan != [] {
        match plan[0] {
          case Take(n) => r := if n < |bytes| then n else |bytes|;
          case Zero => r := 0;
          case Retry => r, retry := -1, true;
          case Hard => r := -1;
        }
        plan := plan[1..];
      }
      if r > 0 {
        taken := taken + bytes[..r];
      }
    }
  }

  lemma Advance(data: seq<Byte>, c: nat, w: nat)
    requires c + w <= |data|
    ensures data[..c] + data[c..][..w] == data[..c + w] && data[c..][w..] == data[c + w..]
  {
  }

  /** One turn of write_retry's loop, with the first c bytes already sent. */
  lemma Turn(data: seq<Byte>, c: nat, plan: seq<Outcome>, w: int, retry: bool, plan': seq<Outcome>)
    requires c <= |data| && Answers(plan, data[c..], w, retry, plan')
    ensures c + w <= |data| && (w == |data| - c || |plan'| < |plan|)
    ensures Prepend(data[..c], Deliver(plan, data[c..])) ==
            if w == 0 then Delivery(data[..c], c, plan')
            else if w < 0 then
              if retry then Prepend(data[..c], Deliver(plan', data[c..])) else Delivery(data[..c], -1, plan')
            else if c + w == |data| then Delivery(data, |data|, plan')
            else Prepend(data[..c + w], Deliver(plan', data[c + w..]))
    ensures w > 0 ==> data[..c] + data[c..][..w] == data[..c + w]
  {
    hide Deliver, Answers;
    DeliverStep(plan, data[c..], w, retry, plan');
    if w > 0 {
      Advance(data, c, w);
      if c + w < |data| {
        ResultBound(plan', data[c + w..]);
        PrependTwice(data[..c], data[c..][..w], Deliver(plan', data[c + w..]));
      }
    }
  }

  /** write_retry, counted. */
  method WriteRetry(fd: Descriptor, data: seq<Byte>) returns (result: int)
    modifies fd
    ensures var d := Deliver(old(fd.plan), data);
      fd.taken == old(fd.taken) + d.bytes && result == d.result && fd.plan == d.rest
    ensures fd.requests == old(fd.requests) + 1
  {
    fd.requests := fd.requests + 1;
    result := WriteUntilDone(fd, data);
  }

  /** The loop of write_retry. */
  method WriteUntilDone(fd: Descriptor, data: seq<Byte>) returns (result: int)
    modifies fd`taken, fd`plan
    ensures var d := Deliver(old(fd.plan), data);
      fd.taken == old(fd.taken) + d.bytes && result == d.result && fd.plan == d.rest
  {
    hide Deliver, Answers, Prepend;
    var cdata, size := 0, |data|;
    assert data[0..] == data && data[..0] == [];
    PrependNothing(fd.plan, data);
    while true
      invariant 0 <= cdata && 0 <= size && cdata + size == |data|
      invariant fd.taken == old(fd.taken) + data[..cdata]
      invariant Deliver(old(fd.plan), data) == Prepend(data[..cdata], Deliver(fd.plan, data[cdata..]))
      decreases |fd.plan|
    {
      ghost var plan := fd.plan;
      var written, retry := fd.Write(data[cdata..]);
      Turn(data, cdata, plan, written, retry, fd.plan);
      if written == 0 {
        return cdata;
      }
      if written < 0 {
        if retry {
          continue;
        } else {
          return -1;
        }
      }
      cdata := cdata + written;
      size := size - written;
      if size == 0 {
        assert data[..cdata] == data;
        return cdata;
      }
    }
  }

  lemma PrependNothing(plan: seq<Outcome>, data: seq<Byte>)
    ensures Prepend([], Deliver(plan, data)) == Deliver(plan, data)
  {
    ResultBound(plan, data);
  }

  /** The C string at the start of s: everything before the first NUL. */
  function CString(s: seq<Byte>): (r: seq<Byte>)
    ensures r <= s && 0 !in r
    ensures r == s <==> 0 !in s
    ensures 0 in s ==> |r| < |s| && s[|r|] == 0
  {
    if s == [] || s[0] == 0 then [] else [s[0]] + CString(s[1..])
  }

  function CeilDiv(n: nat, d: nat): nat
    requires d > 0
  {
    (n + d - 1) / d
  }

  /** The bytes `calls` flushes of a full buffer have taken off it. */
  function Flushed(calls: nat, capacity: nat): nat {
    calls * capacity
  }

  lemma FlushedNext(calls: nat, capacity: nat)
    ensures Flushed(calls + 1, capacity) == Flushed(calls, capacity) + capacity
  {
  }

  class Writer {
    const fd: Descriptor
    const capacity: nat
    const buffer: array<Byte>
    var size: nat
    /** All bytes handed to Put so far, what fd had taken before and how many calls of write_retry it
        had seen, and the calls since. */
    ghost var accepted: seq<Byte>
    ghost var before: seq<Byte>
    ghost const earlier: nat
    ghost var calls: nat

    constructor (capacity: nat, fd: Descriptor)
      ensures Valid() && fresh(buffer) && this.fd == fd && this.capacity == capacity
      ensures accepted == [] && before == fd.taken && earlier == fd.requests && calls == 0
      ensures Benign(fd.plan) ==> Lossless()
    {
      this.fd, this.capacity := fd, capacity;
      buffer := new Byte[capacity](_ => 0);
      size := 0;
      accepted, before, earlier, calls := [], fd.taken, fd.requests, 0;
    }

    /** The bookkeeping every call keeps, whatever the descriptor does: each flush took exactly
        `capacity` bytes off the buffer, and the buffer is empty only before the first byte. */
    ghost predicate Valid()
      reads this, fd
    {
      && fd.requests == earlier + calls
      && buffer.Length == capacity && size <= capacity
      && Flushed(calls, capacity) + size == |accepted|
      && (size == 0 ==> accepted == [] && calls == 0)
    }

    /** Nothing is lost or reordered: what has been taken plus what is buffered is the input. */
    ghost predicate Lossless()
      requires Valid()
      reads this, fd, buffer
    {
      Benign(fd.plan) && fd.taken + buffer[..size] == before + accepted
    }

    /** memcpy into the buffer. */
    method Memcpy(at: nat, bytes: seq<Byte>)
      requires at + |bytes| <= buffer.Length
      modifies buffer
      ensures buffer[..at + |bytes|] == old(buffer[..at]) + bytes
    {
      forall i | 0 <= i < |bytes| {
        buffer[at + i] := bytes[i];
      }
    }

    /** buffered_write.  The caller must keep len + size within two buffers; strings no longer than
        the capacity always do. */
    method Put(s: seq<Byte>)
      requires Valid() && |CString(s)| + size <= 2 * capacity
      modifies this`size, this`accepted, this`calls, buffer, fd
      ensures Valid() && accepted == old(accepted) + CString(s) && before == old(before)
      ensures old(Lossless()) ==> Lossless()
      ensures var all := old(buffer[..size]) + CString(s);
        if |all| <= capacity then
          buffer[..size] == all && fd.taken == old(fd.taken) && fd.plan == old(fd.plan) && calls == old(calls)
        else
          && buffer[..size] == all[capacity..] && calls == old(calls) + 1
          && fd.taken == old(fd.taken) + Deliver(old(fd.plan), all[..capacity]).bytes
    {
      var str := CString(s);
      hide Deliver, CString, Benign, Flushed;
      if |str| + size > capacity {
        PutOver(str);
      } else {
        ghost var all := buffer[..size] + str;
        assert fd.taken + all == fd.taken + buffer[..size] + str;
        Memcpy(size, str);
        size := size + |str|;
        assert buffer[..size] == all;
        accepted := accepted + str;
      }
    }

    /** The branch of buffered_write that fills the buffer, flushes it, and keeps the rest. */
    method PutOver(str: seq<Byte>)
      requires Valid() && capacity < |str| + size <= 2 * capacity
      modifies this`size, this`accepted, this`calls, buffer, fd
      ensures Valid() && accepted == old(accepted) + str && before == old(before)
      ensures old(Lossless()) ==> Lossless()
      ensures var all := old(buffer[..size]) + str;
        && buffer[..size] == all[capacity..] && calls == old(calls) + 1
        && fd.taken == old(fd.taken) + Deliver(old(fd.plan), all[..capacity]).bytes
    {
      hide Deliver, Flushed, Benign;
      ghost var held, taken, input := buffer[..size], fd.taken, before + accepted;
      Overflow(str);
      FlushedNext(calls, capacity);
      calls := calls + 1;
      accepted := accepted + str;
      assert before + accepted == input + str;
      if taken + held == input {
        KeepsOrder(taken, held, str, capacity, input);
      }
    }

    /** Its effect on buffer and descriptor: a full buffer is sent, the rest of str stays. */
    method Overflow(str: seq<Byte>)
      requires buffer.Length == capacity && size <= capacity < |str| + size <= 2 * capacity
      modifies this`size, buffer, fd
      ensures size == |str| + old(size) - capacity <= capacity
      ensures var all := old(buffer[..size]) + str;
        && buffer[..size] == all[capacity..]
        && fd.taken == old(fd.taken) + Deliver(old(fd.plan), all[..capacity]).bytes
        && (Benign(old(fd.plan)) ==> Benign(fd.plan) && fd.taken == old(fd.taken) + all[..capacity])
      ensures fd.requests == old(fd.requests) + 1
    {
      hide Deliver, Benign;
      CutBehind(buffer[..size], str, capacity);
      var first := capacity - size;
      Memcpy(size, str[..first]);
      Flush(capacity);
      Memcpy(0, str[first..]);
      size := |str| - first;
    }

    /** write_retry on the first n bytes of the buffer. */
    method Flush(n: nat)
      requires n <= buffer.Length
      modifies fd
      ensures fd.taken == old(fd.taken) + Deliver(old(fd.plan), buffer[..n]).bytes
      ensures Benign(old(fd.plan)) ==> Benign(fd.plan) && fd.taken == old(fd.taken) + buffer[..n]
      ensures fd.requests == old(fd.requests) + 1
    {
      if Benign(fd.plan) {
        DeliversAll(fd.plan, buffer[..n]);
      }
      var _ := WriteRetry(fd, buffer[..n]);
    }

    /** close_buffer: delivers the rest; over the whole life write_retry was called exactly
        ceil(L / capacity) times for L bytes of input. */
    method Close()
      requires Valid()
      modifies this`calls, fd
      ensures fd.requests == earlier + calls
      ensures capacity > 0 ==> calls == CeilDiv(|accepted|, capacity)
      ensures old(Lossless()) ==> fd.taken == before + accepted && Benign(fd.plan)
      ensures accepted == old(accepted) && before == old(before)
      ensures fd.taken == old(fd.taken) + (if size > 0 then Deliver(old(fd.plan), buffer[..size]).bytes else [])
    {
      if capacity > 0 {
        CallsAreCeil(calls, size, |accepted|, capacity);
      }
      if size > 0 {
        Flush(size);
        calls := calls + 1;
      }
    }
  }

  lemma CutBehind(held: seq<Byte>, str: seq<Byte>, cut: nat)
    requires |held| <= cut <= |held| + |str|
    ensures (held + str)[..cut] == held + str[..cut - |held|]
    ensures (held + str)[cut..] == str[cut - |held|..]
  {
  }

  /** Sending a prefix of all = held + str and keeping the rest keeps the order of the input. */
  lemma KeepsOrder(taken: seq<Byte>, held: seq<Byte>, str: seq<Byte>, cut: nat, input: seq<Byte>)
    requires cut <= |held + str| && taken + held == input
    ensures taken + (held + str)[..cut] + (held + str)[cut..] == input + str
  {
    assert held + str == (held + str)[..cut] + (held + str)[cut..];
    assert taken + (held + str) == taken + held + str;
  }

  lemma CallsAreCeil(calls: nat, size: nat, total: nat, capacity: nat)
    requires capacity > 0 && size <= capacity && Flushed(calls, capacity) + size == total
    requires size == 0 ==> calls == 0
    ensures CeilDiv(total, capacity) == calls + (if size > 0 then 1 else 0)
  {
    if size > 0 {
      var q := calls + 1;
      assert total + capacity - 1 == q * capacity + (size - 1);
      DivUnique(total + capacity - 1, capacity, q, size - 1);
    } else {
      DivUnique(capacity - 1, capacity, 0, capacity - 1);
    }
  }

  lemma MulAtLeast(x: int, d: int)
    requires x >= 1 && d >= 0
    ensures x * d >= d
  {
  }

  lemma DivUnique(n: nat, d: nat, q: nat, r: nat)
    requires d > 0 && n == q * d + r && r < d
    ensures n / d == q
  {
    var x := q - n / d;
    assert x * d == n % d - r;
    if x >= 1 {
      MulAtLeast(x, d);
    } else if x <= -1 {
      MulAtLeast(-x, d);
    }
  }

  function Concat(lines: seq<seq<Byte>>): seq<Byte> {
    if lines == [] then [] else Concat(lines[..|lines| - 1]) + lines[|lines| - 1]
  }

  function CStrings(lines: seq<seq<Byte>>): (r: seq<seq<Byte>>)
    ensures |r| == |lines| && forall i :: 0 <= i < |r| ==> r[i] == CString(lines[i])
  {
    seq(|lines|, i requires 0 <= i < |lines| => CString(lines[i]))
  }

  /** write_impl: every line getline returns goes through the buffer.  Where the descriptor gives no
      hard error the file comes out whole if and only if no line contains a NUL byte. */
  method WriteImpl(lines: seq<seq<Byte>>, fd: Descriptor, capacity: nat)
    requires capacity > 0 && forall i :: 0 <= i < |lines| ==> |CString(lines[i])| <= capacity
    modifies fd
    ensures Benign(old(fd.plan)) ==> fd.taken == old(fd.taken) + Concat(CStrings(lines))
    ensures Benign(old(fd.plan)) ==> (fd.taken == old(fd.taken) + Concat(lines) <==> NulFree(lines))
    ensures fd.requests == old(fd.requests) + CeilDiv(|Concat(CStrings(lines))|, capacity)
  {
    var writer := new Writer(capacity, fd);
    for i := 0 to |lines|
      invariant writer.Valid() && writer.before == old(fd.taken) && writer.earlier == old(fd.requests)
      invariant writer.accepted == Concat(CStrings(lines)[..i])
      invariant Benign(old(fd.plan)) ==> writer.Lossless()
    {
      var cs := CStrings(lines);
      assert cs[..i + 1][..i] == cs[..i];
      writer.Put(lines[i]);
    }
    assert CStrings(lines)[..|lines|] == CStrings(lines);
    writer.Close();
    WholeFileIff(old(fd.taken), lines);
  }

  lemma CStringsInit(lines: seq<seq<Byte>>)
    requires lines != []
    ensures CStrings(lines)[..|lines| - 1] == CStrings(lines[..|lines| - 1])
  {
  }

  ghost predicate NulFree(lines: seq<seq<Byte>>) {
    forall i :: 0 <= i < |lines| ==> 0 !in lines[i]
  }

  lemma {:induction false} ConcatTruncates(lines: seq<seq<Byte>>)
    ensures |Concat(CStrings(lines))| <= |Concat(lines)|
    ensures |Concat(CStrings(lines))| == |Concat(lines)| <==> NulFree(lines)
    decreases |lines|
  {
    if lines != [] {
      var n := |lines| - 1;
      CStringsInit(lines);
      ConcatTruncates(lines[..n]);
      assert NulFree(lines) <==> NulFree(lines[..n]) && 0 !in lines[n] by {
        assert lines == lines[..n] + [lines[n]];
      }
      hide NulFree, CString;
      assert Concat(lines) == Concat(lines[..n]) + lines[n];
      assert Concat(CStrings(lines)) == Concat(CStrings(lines[..n])) + CString(lines[n]);
    }
  }

  lemma {:induction false} ConcatUntouched(lines: seq<seq<Byte>>)
    requires NulFree(lines)
    ensures CStrings(lines) == lines
  {
  }

  /** Behind whatever has been taken before, the C strings of the lines are the lines themselves
      exactly when no line contains a NUL byte. */
  lemma WholeFileIff(taken: seq<Byte>, lines: seq<seq<Byte>>)
    ensures taken + Concat(CStrings(lines)) == taken + Concat(lines) <==> NulFree(lines)
  {
    ConcatTruncates(lines);
    assert |taken + Concat(CStrings(lines))| == |taken| + |Concat(CStrings(lines))|;
    if NulFree(lines) {
      ConcatUntouched(lines);
    }
  }
}
