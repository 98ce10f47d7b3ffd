/**
 The socket address of a stopped system call: how it is read out of the tracee,
 a word at a time, and which endpoint it names.
 */
module TraceEndpoint {
  import opened Wrappers
  import opened Wire

  const WORD_BYTES := 8
  const ALL_ONES: Byte := 255
  const AF_UNIX := 1
  const SOCKADDR_UN_BYTES := 110
  const SLASH: Byte := 47

  /** The readable bytes of a tracee. */
  type Memory = map<nat, Byte>

  datatype Syscall = Syscall(number: int, address: nat, length: nat)

  datatype Endpoint = NonUnix | UnixPath(path: Bytes) | Invalid

  // ----- reading memory -----

  predicate Readable(memory: Memory, address: nat, n: nat) {
    forall a: nat :: address <= a < address + n ==> a in memory
  }

  function Contents(memory: Memory, address: nat, n: nat): (r: Bytes)
    requires Readable(memory, address, n)
    ensures |r| == n
  {
    if n == 0 then [] else Contents(memory, address, n - 1) + [memory[address + n - 1]]
  }

  lemma {:induction false} ContentsAt(memory: Memory, address: nat, n: nat, i: nat)
    requires Readable(memory, address, n) && i < n
    ensures Contents(memory, address, n)[i] == memory[address + i]
  {
    if i < n - 1 {
      ContentsAt(memory, address, n - 1, i);
    }
  }

  lemma {:induction false} ContentsSplits(memory: Memory, address: nat, n: nat, m: nat)
    requires Readable(memory, address, n + m)
    ensures Readable(memory, address, n) && Readable(memory, address + n, m)
    ensures Contents(memory, address, n + m) == Contents(memory, address, n) + Contents(memory, address + n, m)
    decreases m
  {
    if m > 0 {
      ContentsSplits(memory, address, n, m - 1);
    }
  }

  /** One peek: a word of all ones cannot be told from an error and is taken for one. */
  function Peek(memory: Memory, address: nat): (r: Option<Bytes>)
    ensures r.Some? ==> |r.value| == WORD_BYTES && Readable(memory, address, WORD_BYTES)
  {
    if !Readable(memory, address, WORD_BYTES) then None
    else
      var word := Contents(memory, address, WORD_BYTES);
      if forall i :: 0 <= i < WORD_BYTES ==> word[i] == ALL_ONES then None else Some(word)
  }

  /** Every word that covers the range can be peeked. */
  predicate Peekable(memory: Memory, address: nat, length: nat)
    decreases length
  {
    || length == 0
    || (Peek(memory, address).Some? &&
        (length <= WORD_BYTES || Peekable(memory, address + WORD_BYTES, length - WORD_BYTES)))
  }

  lemma {:induction false} PeekableIsReadable(memory: Memory, address: nat, length: nat)
    requires Peekable(memory, address, length)
    ensures Readable(memory, address, length)
    decreases length
  {
    if length > WORD_BYTES {
      PeekableIsReadable(memory, address + WORD_BYTES, length - WORD_BYTES);
    }
  }

  /** A word of the tracee can be told from an error: all its bytes are readable, and not all of them are ones. */
  ghost predicate WordTold(memory: Memory, address: nat) {
    && Readable(memory, address, WORD_BYTES)
    && exists a: nat :: address <= a < address + WORD_BYTES && memory[a] != ALL_ONES
  }

  ghost predicate WordsTold(memory: Memory, address: nat, length: nat) {
    forall k: nat :: WORD_BYTES * k < length ==> WordTold(memory, address + WORD_BYTES * k)
  }

  lemma PeekTells(memory: Memory, address: nat)
    ensures Peek(memory, address).Some? <==> WordTold(memory, address)
  {
    if Readable(memory, address, WORD_BYTES) {
      var word := Contents(memory, address, WORD_BYTES);
      forall i: nat | i < WORD_BYTES ensures word[i] == memory[address + i] {
        ContentsAt(memory, address, WORD_BYTES, i);
      }
      if a: nat :| address <= a < address + WORD_BYTES && memory[a] != ALL_ONES {
        assert word[a - address] != ALL_ONES;
      }
      if i :| 0 <= i < WORD_BYTES && word[i] != ALL_ONES {
        assert memory[address + i] != ALL_ONES;
      }
    }
  }

  /** A range can be read exactly when every word that covers it can be told from an error. */
  lemma {:induction false} PeekableMeans(memory: Memory, address: nat, length: nat)
    ensures Peekable(memory, address, length) <==> WordsTold(memory, address, length)
    decreases length
  {
    hide Peek, WordTold;
    if length > 0 {
      PeekTells(memory, address);
      assert address + WORD_BYTES * 0 == address;
      if length > WORD_BYTES {
        var next := address + WORD_BYTES;
        PeekableMeans(memory, next, length - WORD_BYTES);
        if WordsTold(memory, address, length) {
          forall k: nat | WORD_BYTES * k < length - WORD_BYTES ensures WordTold(memory, next + WORD_BYTES * k) {
            assert next + WORD_BYTES * k == address + WORD_BYTES * (k + 1);
          }
        }
        if WordTold(memory, address) && WordsTold(memory, next, length - WORD_BYTES) {
          forall k: nat | WORD_BYTES * k < length ensures WordTold(memory, address + WORD_BYTES * k) {
            if k > 0 {
              assert address + WORD_BYTES * k == next + WORD_BYTES * (k - 1);
            }
          }
        }
      }
    }
  }

  /** Copies exactly the tracee's bytes, or fails because some covering word cannot be peeked. */
  method ReadMemory(memory: Memory, address: nat, length: nat) returns (r: Option<Bytes>)
    ensures r.Some? <==> Peekable(memory, address, length)
    ensures r.Some? ==> Readable(memory, address, length) && r.value == Contents(memory, address, length)
  {
    var bytes: Bytes := [];
    var offset: nat := 0;
    while offset < length
      invariant offset <= length && Readable(memory, address, offset)
      invariant bytes == Contents(memory, address, offset)
      invariant Peekable(memory, address, length) <==> Peekable(memory, address + offset, length - offset)
      decreases length - offset
    {
      var word := Peek(memory, address + offset);
      if word.None? {
        return None;
      }
      var take := if length - offset < WORD_BYTES then length - offset else WORD_BYTES;
      WordPrefix(memory, address + offset, take);
      JoinContents(memory, address, offset, take);
      bytes := bytes + word.value[..take];
      offset := offset + take;
    }
    return Some(bytes);
  }

  lemma WordPrefix(memory: Memory, address: nat, take: nat)
    requires take <= WORD_BYTES && Peek(memory, address).Some?
    ensures Readable(memory, address, take)
    ensures Peek(memory, address).value[..take] == Contents(memory, address, take)
  {
    hide Contents;
    ContentsSplits(memory, address, take, WORD_BYTES - take);
  }

  lemma JoinContents(memory: Memory, address: nat, n: nat, m: nat)
    requires Readable(memory, address, n) && Readable(memory, address + n, m)
    ensures Readable(memory, address, n + m)
    ensures Contents(memory, address, n + m) == Contents(memory, address, n) + Contents(memory, address + n, m)
  {
    hide Contents;
    ContentsSplits(memory, address, n, m);
  }

  // ----- the endpoint in an address -----

  function UntilZero(bytes: Bytes): (r: Bytes)
    ensures r <= bytes && 0 !in r
    ensures |r| < |bytes| ==> bytes[|r|] == 0
  {
    if bytes == [] || bytes[0] == 0 then [] else
      assert bytes == [bytes[0]] + bytes[1..];
      [bytes[0]] + UntilZero(bytes[1..])
  }

  /** The address family, least significant byte first. */
  function Family(low: Byte, high: Byte): (r: nat) { (low as int) + 256 * (high as int) }

  /** The endpoint of an address of at least two bytes. */
  function Parse(bytes: Bytes): (r: Endpoint)
    requires |bytes| >= 2
  {
    if Family(bytes[0], bytes[1]) != AF_UNIX then NonUnix
    else
      var path := UntilZero(bytes[2..]);
      if path == [] || path[0] != SLASH then Invalid else UnixPath(path)
  }

  function Covered(syscall: Syscall): (r: nat) {
    if syscall.length < SOCKADDR_UN_BYTES then syscall.length else SOCKADDR_UN_BYTES
  }

  /** `None` where the tracee's memory cannot be read. */
  function EndpointOf(memory: Memory, syscall: Syscall): (r: Option<Endpoint>) {
    if syscall.address == 0 || syscall.length < 2 then Some(Invalid)
    else if !Peekable(memory, syscall.address, Covered(syscall)) then None
    else
      PeekableIsReadable(memory, syscall.address, Covered(syscall));
      Some(Parse(Contents(memory, syscall.address, Covered(syscall))))
  }

  method ReadEndpoint(memory: Memory, syscall: Syscall) returns (r: Option<Endpoint>)
    ensures r == EndpointOf(memory, syscall)
  {
    if syscall.address == 0 || syscall.length < 2 {
      return Some(Invalid);
    }
    var length := if syscall.length < SOCKADDR_UN_BYTES then syscall.length else SOCKADDR_UN_BYTES;
    var read := ReadMemory(memory, syscall.address, length);
    if read.None? {
      return None;
    }
    var bytes := read.value;
    if Family(bytes[0], bytes[1]) != AF_UNIX {
      return Some(NonUnix);
    }
    if length > 2 && bytes[2] == 0 {
      return Some(Invalid);
    }
    var rest := bytes[2..];
    var n := 0;
    while n < |rest| && rest[n] != 0
      invariant n <= |rest| && n <= |UntilZero(rest)|
      invariant rest[..n] <= UntilZero(rest)
    {
      UntilZeroStops(rest, n + 1);
      n := n + 1;
    }
    UntilZeroStops(rest, n);
    var path := rest[..n];
    if path == [] || path[0] != SLASH {
      return Some(Invalid);
    }
    return Some(UnixPath(path));
  }

  /** Where the bytes before `n` are not zero the prefix reaches `n`; where `n` is zero or the end it stops. */
  lemma UntilZeroStops(bytes: Bytes, n: nat)
    requires n <= |bytes| && (n > 0 ==> n - 1 <= |UntilZero(bytes)| && bytes[n - 1] != 0)
    ensures n <= |UntilZero(bytes)| && bytes[..n] <= UntilZero(bytes)
    ensures n == |bytes| || bytes[n] == 0 ==> UntilZero(bytes) == bytes[..n]
  {
    hide UntilZero;
    var prefix := UntilZero(bytes);
    assert prefix == bytes[..|prefix|];
    if n < |prefix| {
      assert bytes[n] == prefix[n];
    }
  }

  // ----- what the address means, without the reader -----

  /** The Unix path an address of `n` bytes names: what lies before its first zero byte, or all of it. */
  ghost predicate NamesPath(memory: Memory, address: nat, n: nat, path: Bytes) {
    && 2 <= n && |path| <= n - 2 && Readable(memory, address, n)
    && Family(memory[address], memory[address + 1]) == AF_UNIX
    && 0 !in path && path != [] && path[0] == SLASH
    && (forall i: nat :: i < |path| ==> memory[address + 2 + i] == path[i])
    && (|path| == n - 2 || memory[address + 2 + |path|] == 0)
  }

  ghost predicate NamesNonUnix(memory: Memory, address: nat, n: nat) {
    2 <= n && Readable(memory, address, 2) && Family(memory[address], memory[address + 1]) != AF_UNIX
  }

  /** The Unix family is a one in the first byte and a zero in the second. */
  lemma FamilyMeans(low: Byte, high: Byte)
    ensures Family(low, high) == AF_UNIX <==> low == 1 && high == 0
  {
  }

  /** A read endpoint is the one its address names: a path exactly when the address names that path. */
  lemma EndpointMeaning(memory: Memory, syscall: Syscall, path: Bytes)
    requires EndpointOf(memory, syscall).Some?
    ensures EndpointOf(memory, syscall) == Some(UnixPath(path))
        <==> syscall.address != 0 && NamesPath(memory, syscall.address, Covered(syscall), path)
    ensures EndpointOf(memory, syscall) == Some(NonUnix)
        <==> syscall.address != 0 && NamesNonUnix(memory, syscall.address, Covered(syscall))
  {
    hide Peekable, Contents, UntilZero;
    if syscall.address != 0 && syscall.length >= 2 {
      var n := Covered(syscall);
      PeekableIsReadable(memory, syscall.address, n);
      var bytes := Contents(memory, syscall.address, n);
      forall i: nat | i < n ensures bytes[i] == memory[syscall.address + i] {
        ContentsAt(memory, syscall.address, n, i);
      }
      if Family(bytes[0], bytes[1]) == AF_UNIX {
        PathMeaning(memory, syscall.address, bytes, path);
      }
    }
  }

  lemma PathMeaning(memory: Memory, address: nat, bytes: Bytes, path: Bytes)
    requires |bytes| >= 2 && Readable(memory, address, |bytes|)
    requires forall i: nat :: i < |bytes| ==> bytes[i] == memory[address + i]
    requires Family(bytes[0], bytes[1]) == AF_UNIX
    ensures Parse(bytes) == UnixPath(path) <==> NamesPath(memory, address, |bytes|, path)
  {
    hide UntilZero;
    var rest := bytes[2..];
    assert forall i: nat :: i < |rest| ==> rest[i] == memory[address + 2 + i];
    if NamesPath(memory, address, |bytes|, path) {
      assert forall i: nat :: i < |path| ==> memory[address + 2 + i] == path[i];
      assert path == rest[..|path|];
      UntilZeroUnique(rest, path);
    }
    var prefix := UntilZero(rest);
    assert prefix == rest[..|prefix|];
  }

  lemma UntilZeroUnique(bytes: Bytes, path: Bytes)
    requires path <= bytes && 0 !in path && (|path| == |bytes| || bytes[|path|] == 0)
    ensures UntilZero(bytes) == path
  {
    hide UntilZero;
    var prefix := UntilZero(bytes);
    assert path == bytes[..|path|] && prefix == bytes[..|prefix|];
  }
}
