/**
 The frame that carries the final command environment to the helper. The writer
 checks limits only; the reader also checks names and values.
 */
module EnvironmentFrame {
  import opened Wrappers
  import opened Wire

  const MAGIC: Bytes := [67, 70, 69, 78, 86, 1]      // CFENV\x01
  const MAX_ENTRIES := 4096
  const MAX_VALUE_BYTES := 0x10_0000
  const MAX_FRAME_BYTES := 0x100_0000
  const EQUALS: Byte := 61

  datatype FrameError =
    | Io | InvalidMagic | EntryLimitExceeded(count: nat) | LengthLimitExceeded(length: nat)
    | FrameLimitExceeded | InvalidName | InvalidValue | DuplicateVariable

  type Entry = (Bytes, Bytes)

  type Variables = map<Bytes, Bytes>

  // ----- listings of an environment -----

  predicate DistinctNames(entries: seq<Entry>) {
    forall i, j :: 0 <= i < j < |entries| ==> entries[i].0 != entries[j].0
  }

  ghost predicate Listed(entries: seq<Entry>, name: Bytes) {
    exists i :: 0 <= i < |entries| && entries[i].0 == name
  }

  /** `entries` lists every variable of `env` once, in any order. */
  ghost predicate Lists(entries: seq<Entry>, env: Variables) {
    && DistinctNames(entries)
    && (forall i :: 0 <= i < |entries| ==> entries[i].0 in env && env[entries[i].0] == entries[i].1)
    && (forall name :: name in env ==> Listed(entries, name))
  }

  lemma ListingDetermines(entries: seq<Entry>, left: Variables, right: Variables)
    requires Lists(entries, left) && Lists(entries, right)
    ensures left == right
  {
    forall name | name in left ensures name in right && left[name] == right[name] {
      assert Listed(entries, name);
    }
    forall name | name in right ensures name in left {
      assert Listed(entries, name);
    }
  }

  lemma ListingGrows(entries: seq<Entry>, k: nat, env: Variables)
    requires k < |entries| && DistinctNames(entries) && Lists(entries[..k], env)
    ensures entries[k].0 !in env
    ensures Lists(entries[..k + 1], env[entries[k].0 := entries[k].1])
  {
    var next := env[entries[k].0 := entries[k].1];
    assert entries[k].0 in env ==> Listed(entries[..k], entries[k].0);
    forall name | name in next ensures Listed(entries[..k + 1], name) {
      if name == entries[k].0 {
        assert entries[..k + 1][k].0 == name;
      } else {
        assert Listed(entries[..k], name);
        var i :| 0 <= i < k && entries[..k][i].0 == name;
        assert entries[..k + 1][i].0 == name;
      }
    }
  }

  function TotalBytes(entries: seq<Entry>): (r: nat) {
    if entries == [] then 0
    else
      var last := entries[|entries| - 1];
      TotalBytes(entries[..|entries| - 1]) + |last.0| + |last.1|
  }

  lemma TotalGrows(entries: seq<Entry>, k: nat)
    requires k < |entries|
    ensures TotalBytes(entries[..k + 1]) == TotalBytes(entries[..k]) + |entries[k].0| + |entries[k].1|
  {
    assert entries[..k + 1][..k] == entries[..k];
  }

  lemma {:induction false} TotalMonotone(entries: seq<Entry>, k: nat)
    requires k <= |entries|
    ensures TotalBytes(entries[..k]) <= TotalBytes(entries)
    decreases |entries| - k
  {
    if k < |entries| {
      TotalGrows(entries, k);
      TotalMonotone(entries, k + 1);
    } else {
      assert entries[..k] == entries;
    }
  }

  // ----- what each side accepts -----

  predicate FitsEntry(entry: Entry) {
    |entry.0| <= MAX_VALUE_BYTES && |entry.1| <= MAX_VALUE_BYTES
  }

  /** The limits the writer enforces. */
  predicate Fits(entries: seq<Entry>) {
    && |entries| <= MAX_ENTRIES
    && TotalBytes(entries) <= MAX_FRAME_BYTES
    && forall i :: 0 <= i < |entries| ==> FitsEntry(entries[i])
  }

  predicate CleanName(name: Bytes) { name != [] && 0 !in name && EQUALS !in name }

  predicate CleanEntry(entry: Entry) { CleanName(entry.0) && 0 !in entry.1 }

  predicate Clean(entries: seq<Entry>) {
    forall i :: 0 <= i < |entries| ==> CleanEntry(entries[i])
  }

  function ValidateEntry(entry: Entry): (r: Outcome<FrameError>)
    ensures r.Pass? <==> CleanEntry(entry)
    ensures r == Fail(InvalidName) <==> !CleanName(entry.0)
    ensures r == Fail(InvalidValue) <==> CleanName(entry.0) && 0 in entry.1
  {
    if entry.0 == [] || 0 in entry.0 || EQUALS in entry.0 then Fail(InvalidName)
    else if 0 in entry.1 then Fail(InvalidValue)
    else Pass
  }

  // ----- the frame -----

  function EncodeString(value: Bytes): (r: Bytes) { BigEndian(|value|, 8) + value }

  function EncodeEntries(entries: seq<Entry>): (r: Bytes) {
    if entries == [] then []
    else EncodeString(entries[0].0) + EncodeString(entries[0].1) + EncodeEntries(entries[1..])
  }

  function EncodeEnvironment(entries: seq<Entry>): (r: Bytes) {
    MAGIC + BigEndian(|entries|, 8) + EncodeEntries(entries)
  }

  function DecodeString(stream: Bytes): (r: Result<(Bytes, Bytes), FrameError>) {
    var head := Take(stream, 8);
    if head.None? then Failure(Io)
    else
      var length := FromBigEndian(head.value.0);
      if length > MAX_VALUE_BYTES then Failure(LengthLimitExceeded(length))
      else
        var body := Take(head.value.1, length);
        if body.None? then Failure(Io) else Success(body.value)
  }

  function DecodeEntry(stream: Bytes): (r: Result<(Entry, Bytes), FrameError>) {
    var (name, afterName) :- DecodeString(stream);
    var (value, rest) :- DecodeString(afterName);
    Success(((name, value), rest))
  }

  /** Adds one entry to what was read: size, then spelling, then duplicates are checked. */
  function Admit(total: nat, env: Variables, entry: Entry): (r: Result<(nat, Variables), FrameError>) {
    var grown := total + |entry.0| + |entry.1|;
    if grown > MAX_FRAME_BYTES then Failure(FrameLimitExceeded)
    else if ValidateEntry(entry).Fail? then Failure(ValidateEntry(entry).error)
    else if entry.0 in env then Failure(DuplicateVariable)
    else Success((grown, env[entry.0 := entry.1]))
  }

  /** Which entry is refused, and why: too much in all, then a bad name, a bad value, a name already read. */
  lemma AdmitAnswers(total: nat, env: Variables, entry: Entry)
    ensures var r, fits := Admit(total, env, entry), total + |entry.0| + |entry.1| <= MAX_FRAME_BYTES;
      && (r == Failure(FrameLimitExceeded) <==> !fits)
      && (r == Failure(InvalidName) <==> fits && !CleanName(entry.0))
      && (r == Failure(InvalidValue) <==> fits && CleanName(entry.0) && 0 in entry.1)
      && (r == Failure(DuplicateVariable) <==> fits && CleanEntry(entry) && entry.0 in env)
      && (r.Success? <==> fits && CleanEntry(entry) && entry.0 !in env)
  {
  }

  function DecodeEntries(stream: Bytes, count: nat, total: nat, env: Variables)
    : (r: Result<(Variables, Bytes), FrameError>)
    decreases count
  {
    if count == 0 then Success((env, stream))
    else
      var (entry, rest) :- DecodeEntry(stream);
      var (grown, next) :- Admit(total, env, entry);
      DecodeEntries(rest, count - 1, grown, next)
  }

  function DecodeCount(stream: Bytes): (r: Result<(nat, Bytes), FrameError>) {
    var magic := Take(stream, |MAGIC|);
    if magic.None? then Failure(Io)
    else if magic.value.0 != MAGIC then Failure(InvalidMagic)
    else
      var head := Take(magic.value.1, 8);
      if head.None? then Failure(Io)
      else if FromBigEndian(head.value.0) > MAX_ENTRIES then
        Failure(EntryLimitExceeded(FromBigEndian(head.value.0)))
      else Success((FromBigEndian(head.value.0), head.value.1))
  }

  function DecodeEnvironment(stream: Bytes): (r: Result<(Variables, Bytes), FrameError>) {
    var (count, rest) :- DecodeCount(stream);
    DecodeEntries(rest, count, 0, map[])
  }

  // ----- what is written is read back -----

  lemma StringRoundTrip(value: Bytes, rest: Bytes)
    requires |value| <= MAX_VALUE_BYTES
    ensures DecodeString(EncodeString(value) + rest) == Success((value, rest))
  {
    Power256Is();
    BigEndianReads(|value|, 8);
    assert EncodeString(value) + rest == BigEndian(|value|, 8) + (value + rest);
    TakeWritten(BigEndian(|value|, 8), value + rest);
    TakeWritten(value, rest);
  }

  lemma EntryRoundTrip(entry: Entry, rest: Bytes)
    requires FitsEntry(entry)
    ensures DecodeEntry(EncodeString(entry.0) + EncodeString(entry.1) + rest) == Success((entry, rest))
  {
    hide EncodeString, DecodeString;
    var after := EncodeString(entry.1) + rest;
    assert EncodeString(entry.0) + EncodeString(entry.1) + rest == EncodeString(entry.0) + after;
    StringRoundTrip(entry.0, after);
    StringRoundTrip(entry.1, rest);
  }

  /** One entry of a listing is admitted exactly when it is clean. */
  lemma ListedEntryAdmitted(entries: seq<Entry>, k: nat, sofar: Variables)
    requires k < |entries| && Fits(entries) && DistinctNames(entries) && Lists(entries[..k], sofar)
    ensures var r := Admit(TotalBytes(entries[..k]), sofar, entries[k]);
      && (r.Success? <==> CleanEntry(entries[k]))
      && (r.Success? ==> r.value == (TotalBytes(entries[..k + 1]), sofar[entries[k].0 := entries[k].1]))
      && (r.Failure? ==> r.error == Complaint(entries[k]))
  {
    hide Lists, TotalBytes;
    TotalGrows(entries, k);
    TotalMonotone(entries, k + 1);
    ListingGrows(entries, k, sofar);
  }

  function Complaint(entry: Entry): (r: FrameError) {
    if CleanName(entry.0) then InvalidValue else InvalidName
  }

  predicate FirstUnclean(entries: seq<Entry>, k: nat) {
    k < |entries| && !CleanEntry(entries[k]) && forall i :: 0 <= i < k ==> CleanEntry(entries[i])
  }

  /** Clean entries are all read; otherwise the first unclean one is named. */
  ghost predicate ReadsBack(r: Result<(Variables, Bytes), FrameError>, entries: seq<Entry>, env: Variables, rest: Bytes) {
    && (r.Success? <==> Clean(entries))
    && (r.Success? ==> r.value == (env, rest))
    && (forall k: nat :: FirstUnclean(entries, k) ==> r == Failure(Complaint(entries[k])))
  }

  lemma {:induction false} EntriesRoundTrip(entries: seq<Entry>, k: nat, sofar: Variables, env: Variables, rest: Bytes)
    requires k <= |entries| && Fits(entries) && Lists(entries, env) && Lists(entries[..k], sofar)
    ensures ReadsBack(DecodeEntries(EncodeEntries(entries[k..]) + rest, |entries| - k, TotalBytes(entries[..k]), sofar),
                      entries[k..], env, rest)
    decreases |entries| - k
  {
    hide DecodeEntry, Lists, TotalBytes, Fits, Admit, EncodeString;
    if k == |entries| {
      assert entries[..k] == entries;
      ListingDetermines(entries, sofar, env);
      assert EncodeEntries(entries[k..]) + rest == rest;
    } else {
      EntriesStep(entries, k, sofar, env, rest);
      if CleanEntry(entries[k]) {
        EntriesRoundTrip(entries, k + 1, sofar[entries[k].0 := entries[k].1], env, rest);
      }
      assert entries[k..] == [entries[k]] + entries[k + 1..];
      CleanTail(entries[k], entries[k + 1..]);
    }
  }

  lemma CleanTail(entry: Entry, others: seq<Entry>)
    ensures Clean([entry] + others) <==> CleanEntry(entry) && Clean(others)
  {
    var all := [entry] + others;
    assert forall i :: 0 <= i < |others| ==> others[i] == all[i + 1];
    assert all[0] == entry;
  }

  lemma EntriesStep(entries: seq<Entry>, k: nat, sofar: Variables, env: Variables, rest: Bytes)
    requires k < |entries| && Fits(entries) && Lists(entries, env) && Lists(entries[..k], sofar)
    ensures CleanEntry(entries[k]) ==> Lists(entries[..k + 1], sofar[entries[k].0 := entries[k].1])
    ensures var r := DecodeEntries(EncodeEntries(entries[k..]) + rest, |entries| - k, TotalBytes(entries[..k]), sofar);
      && (CleanEntry(entries[k]) ==>
            r == DecodeEntries(EncodeEntries(entries[k + 1..]) + rest, |entries| - k - 1,
                               TotalBytes(entries[..k + 1]), sofar[entries[k].0 := entries[k].1]))
      && (!CleanEntry(entries[k]) ==> r == Failure(Complaint(entries[k])))
  {
    assert DistinctNames(entries) && FitsEntry(entries[k]);
    hide DecodeEntry, Lists, TotalBytes, Admit, EncodeString, CleanEntry;
    var entry, after := entries[k], EncodeEntries(entries[k + 1..]) + rest;
    assert entries[k..][1..] == entries[k + 1..];
    assert EncodeEntries(entries[k..]) + rest == EncodeString(entry.0) + EncodeString(entry.1) + after;
    EntryRoundTrip(entry, after);
    ListedEntryAdmitted(entries, k, sofar);
    ListingGrows(entries, k, sofar);
  }

  lemma CountRoundTrip(count: nat, rest: Bytes)
    requires count <= MAX_ENTRIES
    ensures DecodeCount(MAGIC + BigEndian(count, 8) + rest) == Success((count, rest))
  {
    Power256Is();
    BigEndianReads(count, 8);
    assert MAGIC + BigEndian(count, 8) + rest == MAGIC + (BigEndian(count, 8) + rest);
    TakeWritten(MAGIC, BigEndian(count, 8) + rest);
    TakeWritten(BigEndian(count, 8), rest);
  }

  /** A written environment is read back, in whatever order it was written, exactly when every entry is clean. */
  lemma EnvironmentRoundTrip(entries: seq<Entry>, env: Variables, rest: Bytes)
    requires Fits(entries) && Lists(entries, env)
    ensures ReadsBack(DecodeEnvironment(EncodeEnvironment(entries) + rest), entries, env, rest)
  {
    hide DecodeCount, DecodeEntries, EncodeEntries, Lists, ReadsBack;
    var after := EncodeEntries(entries) + rest;
    assert EncodeEnvironment(entries) + rest == MAGIC + BigEndian(|entries|, 8) + after;
    CountRoundTrip(|entries|, after);
    assert entries[0..] == entries && entries[..0] == [];
    NothingListed();
    EntriesRoundTrip(entries, 0, map[], env, rest);
  }

  /** An entry the writer accepts and the reader refuses: a name that is an equals sign. */
  lemma UncleanEntryIsRefused(rest: Bytes)
    ensures var entries: seq<Entry> := [([EQUALS], [])];
      && Fits(entries) && Lists(entries, map[[EQUALS] := []])
      && DecodeEnvironment(EncodeEnvironment(entries) + rest).Failure?
  {
    var entries: seq<Entry> := [([EQUALS], [])];
    assert entries[..0] == [] && TotalBytes(entries) == 1;
    assert Listed(entries, entries[0].0);
    assert !CleanEntry(entries[0]);
    EnvironmentRoundTrip(entries, map[[EQUALS] := []], rest);
    hide DecodeEnvironment, EncodeEnvironment;
  }

  lemma NothingListed()
    ensures Lists([], map[])
  {
  }

  // ----- what is read was written -----

  lemma StringRewrites(stream: Bytes)
    requires DecodeString(stream).Success?
    ensures var (value, rest) := DecodeString(stream).value;
      stream == EncodeString(value) + rest && |value| <= MAX_VALUE_BYTES
  {
    hide BigEndian, FromBigEndian;
    var head := Take(stream, 8).value;
    BigEndianWrites(head.0);
    var body := Take(head.1, FromBigEndian(head.0)).value;
    assert stream == head.0 + (body.0 + body.1);
    assert head.0 + (body.0 + body.1) == head.0 + body.0 + body.1;
  }

  lemma EntryRewrites(stream: Bytes)
    requires DecodeEntry(stream).Success?
    ensures var (entry, rest) := DecodeEntry(stream).value;
      stream == EncodeString(entry.0) + EncodeString(entry.1) + rest && FitsEntry(entry)
  {
    hide EncodeString, DecodeString;
    StringRewrites(stream);
    var (name, afterName) := DecodeString(stream).value;
    StringRewrites(afterName);
    var (value, rest) := DecodeString(afterName).value;
    assert EncodeString(name) + (EncodeString(value) + rest) == EncodeString(name) + EncodeString(value) + rest;
  }

  ghost predicate Accounts(before: seq<Entry>, total: nat, env: Variables) {
    && Lists(before, env) && Clean(before) && TotalBytes(before) == total <= MAX_FRAME_BYTES
    && (forall i :: 0 <= i < |before| ==> FitsEntry(before[i]))
  }

  lemma AdmitAccounts(before: seq<Entry>, entry: Entry, total: nat, env: Variables)
    requires Accounts(before, total, env) && FitsEntry(entry) && Admit(total, env, entry).Success?
    ensures var (grown, next) := Admit(total, env, entry).value;
      Accounts(before + [entry], grown, next)
  {
    var after := before + [entry];
    assert after[..|before|] == before && after[..|before| + 1] == after;
    assert DistinctNames(after) by {
      forall i, j | 0 <= i < j < |after| ensures after[i].0 != after[j].0 {
        if j == |before| {
          assert before[i].0 in env;
        }
      }
    }
    ListingGrows(after, |before|, env);
    TotalGrows(after, |before|);
    assert forall i :: 0 <= i < |before| ==> after[i] == before[i];
  }

  lemma {:induction false} EntriesRewrite(before: seq<Entry>, stream: Bytes, count: nat, total: nat, env: Variables)
    returns (entries: seq<Entry>)
    requires Accounts(before, total, env) && DecodeEntries(stream, count, total, env).Success?
    ensures var (result, rest) := DecodeEntries(stream, count, total, env).value;
      && |entries| == count && stream == EncodeEntries(entries) + rest
      && Accounts(before + entries, TotalBytes(before + entries), result)
    decreases count
  {
    hide DecodeEntry, Admit, Accounts, TotalBytes, EncodeString;
    if count == 0 {
      entries := [];
      assert before + [] == before && [] + stream == stream;
      AccountsTotal(before, total, env);
    } else {
      var (entry, after) := DecodeEntry(stream).value;
      EntryRewrites(stream);
      AdmitAccounts(before, entry, total, env);
      var (grown, next) := Admit(total, env, entry).value;
      var others := EntriesRewrite(before + [entry], after, count - 1, grown, next);
      entries := [entry] + others;
      var rest := DecodeEntries(after, count - 1, grown, next).value.1;
      assert before + [entry] + others == before + entries && entries[1..] == others;
      var written := EncodeString(entry.0) + EncodeString(entry.1);
      assert written + (EncodeEntries(others) + rest) == (written + EncodeEntries(others)) + rest;
    }
  }

  lemma AccountsTotal(before: seq<Entry>, total: nat, env: Variables)
    requires Accounts(before, total, env)
    ensures Accounts(before, TotalBytes(before), env)
  {
  }

  lemma CountRewrites(stream: Bytes)
    requires DecodeCount(stream).Success?
    ensures var (count, rest) := DecodeCount(stream).value;
      count <= MAX_ENTRIES && stream == MAGIC + BigEndian(count, 8) + rest
  {
    hide BigEndian, FromBigEndian;
    var magic := Take(stream, |MAGIC|).value;
    var head := Take(magic.1, 8).value;
    BigEndianWrites(head.0);
    assert MAGIC + (head.0 + head.1) == MAGIC + head.0 + head.1;
  }

  /** Whatever the reader accepts is what the writer writes for some listing of the result. */
  lemma EnvironmentRewrites(stream: Bytes) returns (entries: seq<Entry>)
    requires DecodeEnvironment(stream).Success?
    ensures var (env, rest) := DecodeEnvironment(stream).value;
      && Lists(entries, env) && Fits(entries) && Clean(entries)
      && stream == EncodeEnvironment(entries) + rest
  {
    hide DecodeCount, DecodeEntries, EncodeEntries, Lists;
    var (count, body) := DecodeCount(stream).value;
    CountRewrites(stream);
    NothingListed();
    entries := EntriesRewrite([], body, count, 0, map[]);
    assert [] + entries == entries;
    var rest := DecodeEnvironment(stream).value.1;
    assert MAGIC + BigEndian(count, 8) + (EncodeEntries(entries) + rest)
        == (MAGIC + BigEndian(count, 8) + EncodeEntries(entries)) + rest;
  }

  // ----- reading and writing -----

  method WriteString(out: Bytes, value: Bytes) returns (r: Result<Bytes, FrameError>)
    ensures r.Success? <==> |value| <= MAX_VALUE_BYTES
    ensures r.Success? ==> r.value == out + EncodeString(value)
    ensures r.Failure? ==> r.error == LengthLimitExceeded(|value|)
  {
    if |value| > MAX_VALUE_BYTES {
      return Failure(LengthLimitExceeded(|value|));
    }
    return Success(out + BigEndian(|value|, 8) + value);
  }

  method WriteEntries(head: Bytes, entries: seq<Entry>) returns (r: Result<Bytes, FrameError>)
    ensures r.Success? <==> forall i :: 0 <= i < |entries| ==> FitsEntry(entries[i])
    ensures r.Success? ==> r.value == head + EncodeEntries(entries)
    ensures r.Failure? ==> r.error.LengthLimitExceeded? && r.error.length > MAX_VALUE_BYTES
  {
    hide EncodeString;
    var out := head;
    assert entries[0..] == entries;
    for k := 0 to |entries|
      invariant head + EncodeEntries(entries) == out + EncodeEntries(entries[k..])
      invariant forall i :: 0 <= i < k ==> FitsEntry(entries[i])
    {
      assert entries[k..][1..] == entries[k + 1..];
      ghost var after := EncodeEntries(entries[k + 1..]);
      assert out + (EncodeString(entries[k].0) + EncodeString(entries[k].1) + after)
          == out + EncodeString(entries[k].0) + EncodeString(entries[k].1) + after;
      out :- WriteString(out, entries[k].0);
      out :- WriteString(out, entries[k].1);
    }
    assert out + [] == out;
    return Success(out);
  }

  /** Writes exactly the listings that keep the limits. */
  method WriteEnvironment(entries: seq<Entry>) returns (r: Result<Bytes, FrameError>)
    ensures r.Success? <==> Fits(entries)
    ensures r.Success? ==> r.value == EncodeEnvironment(entries)
    ensures r.Failure? ==>
      if |entries| > MAX_ENTRIES then r.error == EntryLimitExceeded(|entries|)
      else if TotalBytes(entries) > MAX_FRAME_BYTES then r.error == FrameLimitExceeded
      else r.error.LengthLimitExceeded? && r.error.length > MAX_VALUE_BYTES
  {
    if |entries| > MAX_ENTRIES {
      return Failure(EntryLimitExceeded(|entries|));
    }
    var total := 0;
    for k := 0 to |entries|
      invariant total == TotalBytes(entries[..k])
    {
      TotalGrows(entries, k);
      total := total + |entries[k].0| + |entries[k].1|;
    }
    assert entries[..|entries|] == entries;
    if total > MAX_FRAME_BYTES {
      return Failure(FrameLimitExceeded);
    }
    r := WriteEntries(MAGIC + BigEndian(|entries|, 8), entries);
  }

  method ReadString(reader: Reader) returns (r: Result<Bytes, FrameError>)
    modifies reader
    ensures r.Success? ==> DecodeString(old(reader.pending)) == Success((r.value, reader.pending))
    ensures r.Failure? ==> DecodeString(old(reader.pending)) == Failure(r.error)
  {
    var head := reader.ReadExact(8);
    if head.None? {
      return Failure(Io);
    }
    var length := FromBigEndian(head.value);
    if length > MAX_VALUE_BYTES {
      return Failure(LengthLimitExceeded(length));
    }
    var value := reader.ReadExact(length);
    if value.None? {
      return Failure(Io);
    }
    return Success(value.value);
  }

  method ReadBody(reader: Reader, count: nat) returns (r: Result<Variables, FrameError>)
    modifies reader
    ensures r.Success? ==> DecodeEntries(old(reader.pending), count, 0, map[]) == Success((r.value, reader.pending))
    ensures r.Failure? ==> DecodeEntries(old(reader.pending), count, 0, map[]) == Failure(r.error)
  {
    hide DecodeString;
    ghost var whole := DecodeEntries(reader.pending, count, 0, map[]);
    var env: Variables := map[];
    var total: nat := 0;
    for k := 0 to count
      invariant whole == DecodeEntries(reader.pending, count - k, total, env)
    {
      var name :- ReadString(reader);
      var value :- ReadString(reader);
      total := total + |name| + |value|;
      if total > MAX_FRAME_BYTES {
        return Failure(FrameLimitExceeded);
      }
      var checked := ValidateEntry((name, value));
      if checked.Fail? {
        return Failure(checked.error);
      }
      if name in env {
        return Failure(DuplicateVariable);
      }
      env := env[name := value];
    }
    return Success(env);
  }

  /** Reads one frame: exactly the decoded environment, leaving what follows the frame. */
  method ReadEnvironment(reader: Reader) returns (r: Result<Variables, FrameError>)
    modifies reader
    ensures r.Success? ==> DecodeEnvironment(old(reader.pending)) == Success((r.value, reader.pending))
    ensures r.Failure? ==> DecodeEnvironment(old(reader.pending)) == Failure(r.error)
  {
    hide DecodeEntries;
    var magic := reader.ReadExact(|MAGIC|);
    if magic.None? {
      return Failure(Io);
    }
    if magic.value != MAGIC {
      return Failure(InvalidMagic);
    }
    var head := reader.ReadExact(8);
    if head.None? {
      return Failure(Io);
    }
    var count := FromBigEndian(head.value);
    if count > MAX_ENTRIES {
      return Failure(EntryLimitExceeded(count));
    }
    r := ReadBody(reader, count);
  }
}
