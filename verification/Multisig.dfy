/** The table of named multisig accounts in flash (memory.c). */
module Multisig {
  import opened Types

  const NUM_ENTRIES := 25
  const NAME_MAX := 30
  const RUN_ON := 63

  type Bytes = seq<byte>

  const EmptyHash: Bytes := Erased(32)

  /** `name` is the C string that starts in the name field. */
  datatype Entry = Entry(name: Bytes, hash: Bytes)

  datatype Status = Ok | InvalidInput | DuplicateName | Full | Unknown

  /** A write to flash reports success, or it fails and may have changed the flash all the same. */
  datatype Write = Done | Failed(landed: bool)

  function Truncated(name: Bytes): (r: Bytes)
    ensures |r| <= NAME_MAX && r <= name && (r == name <==> |name| <= NAME_MAX)
  {
    if |name| <= NAME_MAX then name else name[..NAME_MAX]
  }

  // The search loops: the first index, or the length

  function FindName(table: seq<Entry>, name: Bytes, i: nat): (r: nat)
    requires i <= |table|
    ensures i <= r <= |table| && (r < |table| ==> table[r].name == name)
    ensures forall j :: i <= j < r ==> table[j].name != name
    decreases |table| - i
  {
    if i == |table| || table[i].name == name then i else FindName(table, name, i + 1)
  }

  function FindHash(table: seq<Entry>, hash: Bytes, i: nat): (r: nat)
    requires i <= |table|
    ensures i <= r <= |table| && (r < |table| ==> table[r].hash == hash)
    ensures forall j :: i <= j < r ==> table[j].hash != hash
    decreases |table| - i
  {
    if i == |table| || table[i].hash == hash then i else FindHash(table, hash, i + 1)
  }

  function Stored(table: seq<Entry>, i: nat, hash: Bytes, name: Bytes, w: Write): (seq<Entry>, Status)
    requires i < |table|
  {
    var written := table[i := Entry(Truncated(name), hash)];
    match w
    case Done => (written, Ok)
    case Failed(landed) => (if landed then written else table, Unknown)
  }

  /** The entry to write: the account's own, or the first blank one. */
  function Target(table: seq<Entry>, hash: Bytes): nat {
    var found := FindHash(table, hash, 0);
    if found < |table| then found else FindHash(table, EmptyHash, 0)
  }

  /** `memory_multisig_set_by_hash`. */
  function Set(table: seq<Entry>, hash: Bytes, name: Bytes, w: Write): (seq<Entry>, Status) {
    if name == [] || hash == EmptyHash then (table, InvalidInput)
    else
      var named := FindName(table, name, 0);
      if named < |table| then (table, if table[named].hash == hash then Ok else DuplicateName)
      else
        var i := Target(table, hash);
        if i < |table| then Stored(table, i, hash, name, w) else (table, Full)
  }

  /** `memory_multisig_get_by_hash`. */
  function Get(table: seq<Entry>, hash: Bytes): Option<Bytes> {
    var found := FindHash(table, hash, 0);
    if found < |table| then Some(Truncated(table[found].name)) else None
  }

  class Memory {
    var table: seq<Entry>

    /** Erased flash holds no account. */
    constructor ()
      ensures Inv(table) && Abs(table) == map[]
    {
      table := seq(NUM_ENTRIES, i => Entry(Erased(RUN_ON), EmptyHash));
      ErasedTable();
    }

    method WriteChunk(chunk: seq<Entry>, w: Write) returns (ok: bool)
      modifies this
      ensures ok == w.Done? && table == if w == Failed(false) then old(table) else chunk
    {
      if w != Failed(false) {
        table := chunk;
      }
      return w.Done?;
    }

    method SetByHash(hash: Bytes, name: Bytes, w: Write) returns (status: Status)
      modifies this
      ensures (table, status) == Set(old(table), hash, name, w)
    {
      if name == [] || hash == EmptyHash {
        return InvalidInput;
      }
      var chunk := table;
      for i := 0 to |chunk|
        invariant FindName(chunk, name, 0) == FindName(chunk, name, i)
      {
        if chunk[i].name == name {
          return if chunk[i].hash == hash then Ok else DuplicateName;
        }
      }
      var found, emptyFound, writeIndex, emptyIndex := false, false, 0, 0;
      var i := 0;
      while i < |chunk| && !found
        invariant i <= |chunk|
        invariant !found ==> FindHash(chunk, hash, 0) == FindHash(chunk, hash, i)
        invariant found ==> writeIndex < |chunk| && FindHash(chunk, hash, 0) == writeIndex
        invariant !emptyFound ==> FindHash(chunk, EmptyHash, 0) == FindHash(chunk, EmptyHash, i)
        invariant emptyFound ==> emptyIndex < |chunk| && FindHash(chunk, EmptyHash, 0) == emptyIndex
        decreases |chunk| - i, !found
      {
        if !emptyFound && chunk[i].hash == EmptyHash {
          emptyFound, emptyIndex := true, i;
        }
        if chunk[i].hash == hash {
          writeIndex, found := i, true;
        }
        i := i + 1;
      }
      if !found && !emptyFound {
        return Full;
      }
      if !found {
        writeIndex := emptyIndex;
      }
      chunk := chunk[writeIndex := Entry(Truncated(name), hash)];
      var ok := WriteChunk(chunk, w);
      return if ok then Ok else Unknown;
    }

    method GetByHash(hash: Bytes) returns (name: Option<Bytes>)
      ensures name == Get(table, hash)
    {
      for i := 0 to |table|
        invariant FindHash(table, hash, 0) == FindHash(table, hash, i)
      {
        if table[i].hash == hash {
          return Some(Truncated(table[i].name));
        }
      }
      return None;
    }
  }

  // The table is a finite map from hash to name

  predicate Used(e: Entry) {
    e.hash != EmptyHash
  }

  /** The name and hash fields of an erased entry hold no end of string, so it reads as 63 bytes of 0xff
      and then whatever follows in flash. */
  predicate GoodEntry(e: Entry) {
    if Used(e) then 0 < |e.name| <= NAME_MAX else Erased(RUN_ON) <= e.name
  }

  predicate Inv(table: seq<Entry>) {
    && |table| == NUM_ENTRIES
    && (forall i :: 0 <= i < |table| ==> GoodEntry(table[i]))
    && (forall i, j :: 0 <= i < j < |table| && Used(table[i]) ==> table[i].hash != table[j].hash)
  }

  function Hashes(table: seq<Entry>): set<Bytes> {
    set e | e in table && Used(e) :: e.hash
  }

  lemma HashAt(table: seq<Entry>, hash: Bytes)
    requires hash != EmptyHash
    ensures hash in Hashes(table) <==> FindHash(table, hash, 0) < |table|
  {
    var i := FindHash(table, hash, 0);
    if i < |table| {
      assert table[i] in table;
    }
  }

  function Abs(table: seq<Entry>): map<Bytes, Bytes> {
    map h | h in Hashes(table) :: HashAt(table, h); table[FindHash(table, h, 0)].name
  }

  predicate Taken(m: map<Bytes, Bytes>, name: Bytes) {
    exists h :: h in m && m[h] == name
  }

  /** The same operation on the map: the duplicate test is on the whole name, what is kept is cut. */
  function SetInMap(m: map<Bytes, Bytes>, hash: Bytes, name: Bytes): (map<Bytes, Bytes>, Status) {
    if name == [] || hash == EmptyHash then (m, InvalidInput)
    else if hash in m && m[hash] == name then (m, Ok)
    else if Taken(m, name) then (m, DuplicateName)
    else if hash in m || |m| < NUM_ENTRIES then (m[hash := Truncated(name)], Ok)
    else (m, Full)
  }

  /** The name is the string that a blank entry happens to read as. */
  predicate ReadsBlank(table: seq<Entry>, name: Bytes) {
    exists i :: 0 <= i < |table| && !Used(table[i]) && table[i].name == name
  }

  lemma TakenAt(table: seq<Entry>, name: Bytes)
    requires Inv(table) && !ReadsBlank(table, name)
    ensures Taken(Abs(table), name) <==> FindName(table, name, 0) < |table|
  {
    var i := FindName(table, name, 0);
    if i < |table| {
      var h := table[i].hash;
      assert table[i] in table && FindHash(table, h, 0) == i;
      assert h in Abs(table) && Abs(table)[h] == name;
    }
    if Taken(Abs(table), name) {
      var h :| h in Abs(table) && Abs(table)[h] == name;
      assert table[FindHash(table, h, 0)].name == name;
    }
  }

  /** The map has as many accounts as the table has entries in use. */
  lemma {:induction false} CountUsed(table: seq<Entry>)
    requires forall i, j :: 0 <= i < j < |table| && Used(table[i]) ==> table[i].hash != table[j].hash
    ensures |Hashes(table)| <= |table|
    ensures |Hashes(table)| == |table| <==> forall e :: e in table ==> Used(e)
  {
    if table != [] {
      var n := |table| - 1;
      var rest, last := table[..n], table[n];
      CountUsed(rest);
      assert table == rest + [last];
      if Used(last) {
        assert forall e :: e in rest && Used(e) ==> e.hash != last.hash;
        assert Hashes(table) == Hashes(rest) + {last.hash};
      } else {
        assert Hashes(table) == Hashes(rest);
      }
    }
  }

  lemma RoomAt(table: seq<Entry>)
    requires Inv(table)
    ensures |Abs(table)| < NUM_ENTRIES <==> FindHash(table, EmptyHash, 0) < |table|
  {
    CountUsed(table);
    assert Abs(table).Keys == Hashes(table);
    var i := FindHash(table, EmptyHash, 0);
    if i < |table| {
      assert table[i] in table && !Used(table[i]);
    }
  }

  /** Where an account goes: over its own entry, or over a blank one when it has none. */
  predicate Writable(table: seq<Entry>, i: nat, hash: Bytes) {
    && i < |table| && hash != EmptyHash
    && (table[i].hash == hash || (table[i].hash == EmptyHash && forall e :: e in table ==> e.hash != hash))
  }

  lemma WriteKeepsInv(table: seq<Entry>, i: nat, hash: Bytes, name: Bytes)
    requires Inv(table) && Writable(table, i, hash) && 0 < |name| <= NAME_MAX
    ensures Inv(table[i := Entry(name, hash)])
  {
    var t := table[i := Entry(name, hash)];
    forall j, k | 0 <= j < k < |t| && Used(t[j])
      ensures t[j].hash != t[k].hash
    {
      assert j != i ==> t[j] == table[j] && table[j] in table;
      assert k != i ==> t[k] == table[k] && table[k] in table;
    }
  }

  lemma WrittenHash(table: seq<Entry>, i: nat, hash: Bytes, name: Bytes)
    requires Inv(table) && Writable(table, i, hash) && 0 < |name| <= NAME_MAX
    ensures
      var t := table[i := Entry(name, hash)];
      hash in Abs(t) && Abs(t)[hash] == name
  {
    var t := table[i := Entry(name, hash)];
    WriteKeepsInv(table, i, hash, name);
    HashAt(t, hash);
    assert t[i].hash == hash;
  }

  lemma OtherHash(table: seq<Entry>, i: nat, hash: Bytes, name: Bytes, other: Bytes)
    requires Inv(table) && Writable(table, i, hash) && 0 < |name| <= NAME_MAX
    requires other != hash && other != EmptyHash
    ensures
      var t := table[i := Entry(name, hash)];
      && (other in Abs(t) <==> other in Abs(table))
      && (other in Abs(t) ==> Abs(t)[other] == Abs(table)[other])
  {
    var t := table[i := Entry(name, hash)];
    WriteKeepsInv(table, i, hash, name);
    HashAt(table, other);
    HashAt(t, other);
    var j, k := FindHash(table, other, 0), FindHash(t, other, 0);
    assert k < |t| ==> table[k] == t[k];
    assert j < |t| ==> table[j] == t[j];
  }

  lemma WriteUpdatesMap(table: seq<Entry>, i: nat, hash: Bytes, name: Bytes)
    requires Inv(table) && Writable(table, i, hash) && 0 < |name| <= NAME_MAX
    ensures Abs(table[i := Entry(name, hash)]) == Abs(table)[hash := name]
  {
    var m, n := Abs(table[i := Entry(name, hash)]), Abs(table)[hash := name];
    WrittenHash(table, i, hash, name);
    forall h | h in m.Keys + n.Keys
      ensures h in m && h in n && m[h] == n[h]
    {
      if h != hash {
        OtherHash(table, i, hash, name, h);
      }
    }
    assert m.Keys == n.Keys;
  }

  predicate Injective(m: map<Bytes, Bytes>) {
    forall h, k :: h in m && k in m && m[h] == m[k] ==> h == k
  }

  /** Every set refines the operation on the map: the same answer and the same map, except that a
      failing flash write turns OK into an unknown error and leaves the old or the new map. */
  predicate Refines(table: seq<Entry>, hash: Bytes, name: Bytes, w: Write) {
    var (t, status) := Set(table, hash, name, w);
    var (m, wanted) := SetInMap(Abs(table), hash, name);
    || (status == wanted && Abs(t) == m)
    || (status == Unknown && wanted == Ok && w.Failed? && Abs(t) == if w.landed then m else Abs(table))
  }

  /** A name that is not there yet is written, cut to 30 bytes, if there is room. */
  lemma NewNameIsWritten(table: seq<Entry>, hash: Bytes, name: Bytes, w: Write)
    requires Inv(table) && name != [] && hash != EmptyHash && FindName(table, name, 0) == |table|
    ensures
      var i := Target(table, hash);
      && (i < |table| <==> hash in Abs(table) || |Abs(table)| < NUM_ENTRIES)
      && (i < |table| ==>
          var t := table[i := Entry(Truncated(name), hash)];
          Inv(t) && Abs(t) == Abs(table)[hash := Truncated(name)])
      && Set(table, hash, name, w) == if i < |table| then Stored(table, i, hash, name, w) else (table, Full)
  {
    HashAt(table, hash);
    RoomAt(table);
    var i := Target(table, hash);
    if i < |table| {
      assert Writable(table, i, hash);
      WriteKeepsInv(table, i, hash, Truncated(name));
      WriteUpdatesMap(table, i, hash, Truncated(name));
    }
  }

  lemma OldNameIsFound(table: seq<Entry>, name: Bytes)
    requires Inv(table) && !ReadsBlank(table, name) && FindName(table, name, 0) < |table|
    ensures
      var h := table[FindName(table, name, 0)].hash;
      h in Abs(table) && Abs(table)[h] == name && h != EmptyHash
  {
    var named := FindName(table, name, 0);
    assert table[named] in table && FindHash(table, table[named].hash, 0) == named;
  }

  /** The account owns the name, and so does another whose entry comes first. */
  predicate Shadowed(table: seq<Entry>, hash: Bytes, name: Bytes) {
    var named := FindName(table, name, 0);
    hash in Abs(table) && Abs(table)[hash] == name && named < |table| && table[named].hash != hash
  }

  /** Two accounts with one name are needed for that. */
  lemma InjectiveNeverShadows(table: seq<Entry>, hash: Bytes, name: Bytes)
    requires Inv(table) && Injective(Abs(table)) && !ReadsBlank(table, name)
    ensures !Shadowed(table, hash, name)
  {
    if FindName(table, name, 0) < |table| {
      OldNameIsFound(table, name);
    }
  }

  lemma OldNameRefines(table: seq<Entry>, hash: Bytes, name: Bytes, w: Write)
    requires Inv(table) && !ReadsBlank(table, name) && name != [] && hash != EmptyHash
    requires FindName(table, name, 0) < |table|
    ensures Refines(table, hash, name, w) <==> !Shadowed(table, hash, name)
    ensures Set(table, hash, name, w) ==
      (table, if table[FindName(table, name, 0)].hash == hash then Ok else DuplicateName)
  {
    OldNameIsFound(table, name);
    var m, h := Abs(table), table[FindName(table, name, 0)].hash;
    assert Taken(m, name);
  }

  lemma NewNameRefines(table: seq<Entry>, hash: Bytes, name: Bytes, w: Write)
    requires Inv(table) && name != [] && hash != EmptyHash && FindName(table, name, 0) == |table|
    ensures Refines(table, hash, name, w) && Inv(Set(table, hash, name, w).0)
  {
    TakenAt(table, name);
    NewNameIsWritten(table, hash, name, w);
  }

  /** A name that a blank entry reads as is refused as a duplicate of nothing. */
  lemma BlankNameIsRefused(table: seq<Entry>, hash: Bytes, name: Bytes, w: Write)
    requires Inv(table) && ReadsBlank(table, name) && hash != EmptyHash
    ensures Set(table, hash, name, w) == (table, DuplicateName) && SetInMap(Abs(table), hash, name).1 == Ok
  {
    var i :| 0 <= i < |table| && !Used(table[i]) && table[i].name == name;
    assert |Erased(RUN_ON)| <= |name|;
    RoomAt(table);
    forall h | h in Abs(table)
      ensures Abs(table)[h] != name
    {
      HashAt(table, h);
      assert GoodEntry(table[FindHash(table, h, 0)]);
    }
    assert GoodEntry(table[FindName(table, name, 0)]);
  }

  /** For every table, hash and name: a set refines the operation on the map if and only if the name is not
      what a blank entry reads as, which takes 63 bytes of 0xff, and the account is not shadowed by
      another of the same name, which takes a map that is not injective. Shadowed, it is told that its
      own name is a duplicate. */
  lemma SetRefines(table: seq<Entry>, hash: Bytes, name: Bytes, w: Write)
    requires Inv(table)
    ensures Inv(Set(table, hash, name, w).0)
    ensures Refines(table, hash, name, w) <==>
      hash == EmptyHash || (!ReadsBlank(table, name) && !Shadowed(table, hash, name))
    ensures ReadsBlank(table, name) ==> Erased(RUN_ON) <= name
    ensures Injective(Abs(table)) && !ReadsBlank(table, name) ==> !Shadowed(table, hash, name)
  {
    if Injective(Abs(table)) && !ReadsBlank(table, name) {
      InjectiveNeverShadows(table, hash, name);
    }
    if hash != EmptyHash && name != [] {
      if ReadsBlank(table, name) {
        BlankNameIsRefused(table, hash, name, w);
      } else if FindName(table, name, 0) < |table| {
        OldNameRefines(table, hash, name, w);
      } else {
        NewNameRefines(table, hash, name, w);
      }
    } else if hash != EmptyHash {
      NoEmptyName(table);
    }
  }

  lemma NoEmptyName(table: seq<Entry>)
    requires Inv(table)
    ensures FindName(table, [], 0) == |table|
  {
    assert forall i :: 0 <= i < |table| ==> GoodEntry(table[i]) && table[i].name != [];
  }

  /** Another account has the name that this one is going to get. */
  predicate Clashes(m: map<Bytes, Bytes>, hash: Bytes, name: Bytes) {
    exists h :: h in m && h != hash && m[h] == Truncated(name)
  }

  lemma UpdateKeepsInjective(m: map<Bytes, Bytes>, hash: Bytes, name: Bytes)
    requires Injective(m)
    ensures Injective(m[hash := Truncated(name)]) <==> !Clashes(m, hash, name)
  {
    var n := m[hash := Truncated(name)];
    if Clashes(m, hash, name) {
      var h :| h in m && h != hash && m[h] == Truncated(name);
      assert h in n && hash in n && n[h] == n[hash];
    }
  }

  /** A set that answers OK keeps the map injective if and only if no other account has the name, cut to
      30 bytes. */
  lemma OkKeepsInjective(table: seq<Entry>, hash: Bytes, name: Bytes, w: Write)
    requires Inv(table) && Injective(Abs(table)) && Set(table, hash, name, w).1 == Ok
    ensures Injective(Abs(Set(table, hash, name, w).0)) <==> !Clashes(Abs(table), hash, name)
  {
    if FindName(table, name, 0) == |table| {
      NewNameIsWritten(table, hash, name, w);
      UpdateKeepsInjective(Abs(table), hash, name);
    } else {
      assert GoodEntry(table[FindName(table, name, 0)]);
      OldNameIsFound(table, name);
    }
  }

  /** For names of at most 30 bytes that is what the duplicate test ensures. */
  lemma ShortNamesNeverClash(table: seq<Entry>, hash: Bytes, name: Bytes, w: Write)
    requires Inv(table) && Injective(Abs(table)) && Set(table, hash, name, w).1 == Ok && |name| <= NAME_MAX
    ensures !Clashes(Abs(table), hash, name)
  {
    if FindName(table, name, 0) == |table| {
      TakenAt(table, name);
    } else {
      OldNameIsFound(table, name);
    }
  }

  lemma MapStaysInjective(m: map<Bytes, Bytes>, hash: Bytes, name: Bytes)
    requires Injective(m) && |name| <= NAME_MAX
    ensures Injective(SetInMap(m, hash, name).0)
  {
  }

  datatype Op = Op(hash: Bytes, name: Bytes, write: Write)

  function Run(table: seq<Entry>, ops: seq<Op>): seq<Entry>
    decreases |ops|
  {
    if ops == [] then table else Run(Set(table, ops[0].hash, ops[0].name, ops[0].write).0, ops[1..])
  }

  function RunInMap(m: map<Bytes, Bytes>, ops: seq<Op>): map<Bytes, Bytes>
    decreases |ops|
  {
    if ops == [] then m else RunInMap(SetInMap(m, ops[0].hash, ops[0].name).0, ops[1..])
  }

  /** Over every sequence of sets with names of at most 30 bytes, whatever writes fail, the table
      stands for an injective map of at most 25 accounts. */
  lemma {:induction false} RunKeepsInjective(table: seq<Entry>, ops: seq<Op>)
    requires Inv(table) && Injective(Abs(table))
    requires forall op :: op in ops ==> |op.name| <= NAME_MAX
    ensures Inv(Run(table, ops)) && Injective(Abs(Run(table, ops))) && |Abs(Run(table, ops))| <= NUM_ENTRIES
    decreases |ops|
  {
    if ops == [] {
      CountUsed(table);
      assert Abs(table).Keys == Hashes(table);
    } else {
      var op := ops[0];
      SetRefines(table, op.hash, op.name, op.write);
      MapStaysInjective(Abs(table), op.hash, op.name);
      RunKeepsInjective(Set(table, op.hash, op.name, op.write).0, ops[1..]);
    }
  }

  /** And where no write fails it is exactly the map that the same sets make. */
  lemma {:induction false} RunRefines(table: seq<Entry>, ops: seq<Op>)
    requires Inv(table) && Injective(Abs(table))
    requires forall op :: op in ops ==> |op.name| <= NAME_MAX && op.write.Done?
    ensures Abs(Run(table, ops)) == RunInMap(Abs(table), ops)
    decreases |ops|
  {
    if ops != [] {
      var op := ops[0];
      SetRefines(table, op.hash, op.name, op.write);
      MapStaysInjective(Abs(table), op.hash, op.name);
      RunRefines(Set(table, op.hash, op.name, op.write).0, ops[1..]);
    }
  }

  /** A lookup is a lookup in the map. */
  lemma GetLooksUp(table: seq<Entry>, hash: Bytes)
    requires Inv(table) && hash != EmptyHash
    ensures Get(table, hash) == if hash in Abs(table) then Some(Abs(table)[hash]) else None
  {
    HashAt(table, hash);
  }

  /** A set that answers OK is seen by the next lookup, with the name cut to 30 bytes: the lookup
      returns the name that was given exactly if it has at most 30. */
  lemma GetAfterSet(table: seq<Entry>, hash: Bytes, name: Bytes)
    requires Inv(table) && Set(table, hash, name, Done).1 == Ok
    ensures
      var got := Get(Set(table, hash, name, Done).0, hash);
      got == Some(Truncated(name)) && (got == Some(name) <==> |name| <= NAME_MAX)
  {
    var named := FindName(table, name, 0);
    if named == |table| {
      NewNameIsWritten(table, hash, name, Done);
      GetLooksUp(table[Target(table, hash) := Entry(Truncated(name), hash)], hash);
    } else {
      assert GoodEntry(table[named]) && FindHash(table, hash, 0) == named;
    }
  }

  /** An erased table stands for the empty map. */
  lemma ErasedTable()
    ensures
      var table := seq(NUM_ENTRIES, i => Entry(Erased(RUN_ON), EmptyHash));
      Inv(table) && Abs(table) == map[] && Injective(Abs(table))
  {
  }

  /** Past 30 bytes the duplicate test misses: two accounts get the same stored name. */
  lemma LongNamesCollide(table: seq<Entry>, hash: Bytes, other: Bytes, name: Bytes)
    requires Inv(table) && Abs(table) == map[] && hash != EmptyHash && other != EmptyHash && hash != other
    requires |name| > NAME_MAX && !(Erased(RUN_ON) <= name)
    ensures
      var (t, first) := Set(table, hash, name, Done);
      var (u, second) := Set(t, other, name, Done);
      first == Ok && second == Ok && Get(u, hash) == Get(u, other) == Some(Truncated(name))
  {
    NewNameIsWritten(table, hash, name, Done);
    var t := Set(table, hash, name, Done).0;
    NewNameIsWritten(t, other, name, Done);
    var u := Set(t, other, name, Done).0;
    GetLooksUp(u, hash);
    GetLooksUp(u, other);
  }
}
