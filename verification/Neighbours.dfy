/** The neighbour cache as a value: the list the agent keeps, and the finite map it stands for. */
module Neighbours {
  import opened Bytes
  import Parser

  /** One cached neighbour. */
  datatype Entry = Entry(id: seq<byte>, ttl: nat, role: int, hasIp: bool, ip: Ipv4, wifi: seq<Parser.WifiMod>)

  type Key = seq<byte>

  /** What two ids are compared by. The length is stored in 8 bits and only that many bytes are compared. */
  function KeyOf(id: seq<byte>): Key {
    id[..|id| % 256]
  }

  /** Up to 255 bytes the key is the whole id. */
  lemma KeyIsId(id: seq<byte>)
    ensures KeyOf(id) == id <==> |id| < 256
  {
  }

  /** The position of the first entry with this key, or the length of the list. */
  function Find(c: seq<Entry>, k: Key): (i: nat)
    ensures i <= |c|
    ensures i < |c| ==> KeyOf(c[i].id) == k
    ensures forall j :: 0 <= j < i ==> KeyOf(c[j].id) != k
  {
    if c == [] then 0 else if KeyOf(c[0].id) == k then 0 else 1 + Find(c[1..], k)
  }

  /** A hit refreshes the TTL and keeps the rest of the old entry; a miss puts the new entry in front. */
  function Upsert(c: seq<Entry>, e: Entry): seq<Entry> {
    var i := Find(c, KeyOf(e.id));
    if i < |c| then c[i := c[i].(ttl := e.ttl)] else [e] + c
  }

  /** The entries that have time left, in order. */
  function Live(c: seq<Entry>): seq<Entry> {
    if c == [] then [] else if c[0].ttl == 0 then Live(c[1..]) else [c[0]] + Live(c[1..])
  }

  function Aged(e: Entry): Entry {
    e.(ttl := if e.ttl > 0 then e.ttl - 1 else 0)
  }

  function AgeAll(c: seq<Entry>): (c': seq<Entry>)
    ensures |c'| == |c|
  {
    seq(|c|, i requires 0 <= i < |c| => Aged(c[i]))
  }

  predicate AnyExpired(c: seq<Entry>) {
    exists i :: 0 <= i < |c| && c[i].ttl == 0
  }

  ghost predicate DistinctKeys(c: seq<Entry>) {
    forall i, j :: 0 <= i < j < |c| ==> KeyOf(c[i].id) != KeyOf(c[j].id)
  }

  // -------- the map the list stands for --------

  type Table = map<Key, Entry>

  function TableOf(c: seq<Entry>): Table {
    if c == [] then map[] else TableOf(c[1..])[KeyOf(c[0].id) := c[0]]
  }

  function UpsertTable(m: Table, e: Entry): Table {
    var k := KeyOf(e.id);
    m[k := if k in m then m[k].(ttl := e.ttl) else e]
  }

  function LiveTable(m: Table): Table {
    map k | k in m && m[k].ttl > 0 :: m[k]
  }

  function AgeTable(m: Table): Table {
    map k | k in m :: Aged(m[k])
  }

  predicate ExpiredIn(m: Table) {
    exists k :: k in m && m[k].ttl == 0
  }

  lemma DistinctTail(c: seq<Entry>)
    requires c != [] && DistinctKeys(c)
    ensures DistinctKeys(c[1..])
  {
    var r := c[1..];
    forall i, j | 0 <= i < j < |r|
      ensures KeyOf(r[i].id) != KeyOf(r[j].id)
    {
      assert r[i] == c[i + 1] && r[j] == c[j + 1];
    }
  }

  /** The table holds exactly the listed entries, each under its own key. */
  lemma {:induction false} TableAt(c: seq<Entry>, k: Key)
    ensures k in TableOf(c) <==> Find(c, k) < |c|
    ensures k in TableOf(c) ==> TableOf(c)[k] == c[Find(c, k)]
  {
    if c == [] {
    } else {
      TableAt(c[1..], k);
    }
  }

  lemma FindIs(c: seq<Entry>, k: Key, i: nat)
    requires i <= |c|
    requires i < |c| ==> KeyOf(c[i].id) == k
    requires forall j :: 0 <= j < i ==> KeyOf(c[j].id) != k
    ensures Find(c, k) == i
  {
  }

  lemma FindDistinct(c: seq<Entry>, i: nat)
    requires DistinctKeys(c) && i < |c|
    ensures Find(c, KeyOf(c[i].id)) == i
    ensures KeyOf(c[i].id) in TableOf(c) && TableOf(c)[KeyOf(c[i].id)] == c[i]
  {
    FindIs(c, KeyOf(c[i].id), i);
    TableAt(c, KeyOf(c[i].id));
  }

  /** With distinct keys, the table is as large as the list. */
  lemma {:induction false} TableSize(c: seq<Entry>)
    requires DistinctKeys(c)
    ensures |TableOf(c)| == |c|
  {
    if c == [] {
    } else {
      DistinctTail(c);
      TableSize(c[1..]);
      var k := KeyOf(c[0].id);
      FindIs(c[1..], k, |c| - 1);
      TableAt(c[1..], k);
    }
  }

  // -------- each list operation is the map operation --------

  lemma UpsertFind(c: seq<Entry>, e: Entry, k: Key)
    ensures var i := Find(c, KeyOf(e.id));
      Find(Upsert(c, e), k) ==
      if i < |c| then Find(c, k) else if k == KeyOf(e.id) then 0 else Find(c, k) + 1
  {
    var i := Find(c, KeyOf(e.id));
    var c' := Upsert(c, e);
    if i < |c| {
      FindIs(c', k, Find(c, k));
    } else if k == KeyOf(e.id) {
      FindIs(c', k, 0);
    } else {
      forall j | 0 <= j < Find(c, k) + 1
        ensures KeyOf(c'[j].id) != k
      {
        assert j > 0 ==> c'[j] == c[j - 1];
      }
      FindIs(c', k, Find(c, k) + 1);
    }
  }

  lemma UpsertRefines(c: seq<Entry>, e: Entry)
    requires DistinctKeys(c)
    ensures DistinctKeys(Upsert(c, e))
    ensures TableOf(Upsert(c, e)) == UpsertTable(TableOf(c), e)
    ensures |Upsert(c, e)| == |c| + if KeyOf(e.id) in TableOf(c) then 0 else 1
  {
    var c' := Upsert(c, e);
    TableAt(c, KeyOf(e.id));
    forall k
      ensures k in TableOf(c') <==> k in UpsertTable(TableOf(c), e)
      ensures k in TableOf(c') ==> TableOf(c')[k] == UpsertTable(TableOf(c), e)[k]
    {
      TableAt(c, k);
      TableAt(c', k);
      UpsertFind(c, e, k);
    }
  }

  lemma {:induction false} LiveMembers(c: seq<Entry>)
    ensures forall e :: e in Live(c) <==> e in c && e.ttl > 0
  {
    if c == [] {
    } else {
      LiveMembers(c[1..]);
    }
  }

  lemma {:induction false} LiveSize(c: seq<Entry>)
    ensures |Live(c)| <= |c|
    ensures |Live(c)| == |c| <==> !AnyExpired(c)
  {
    if c == [] {
    } else {
      var r := c[1..];
      LiveSize(r);
      if AnyExpired(r) {
        var i :| 0 <= i < |r| && r[i].ttl == 0;
        assert c[i + 1].ttl == 0;
      }
      if AnyExpired(c) && c[0].ttl != 0 {
        var i :| 0 <= i < |c| && c[i].ttl == 0;
        assert r[i - 1].ttl == 0;
      }
    }
  }

  lemma {:induction false} LiveDistinct(c: seq<Entry>)
    requires DistinctKeys(c)
    ensures DistinctKeys(Live(c))
  {
    if c == [] {
    } else {
      var r := c[1..];
      DistinctTail(c);
      LiveDistinct(r);
      LiveMembers(r);
      forall j | 0 <= j < |Live(r)|
        ensures KeyOf(Live(r)[j].id) != KeyOf(c[0].id)
      {
        assert Live(r)[j] in r;
      }
    }
  }

  lemma {:induction false} LiveTableAt(c: seq<Entry>, k: Key)
    requires DistinctKeys(c)
    ensures k in TableOf(Live(c)) <==> k in TableOf(c) && TableOf(c)[k].ttl > 0
    ensures k in TableOf(Live(c)) ==> TableOf(Live(c))[k] == TableOf(c)[k]
  {
    if c == [] {
    } else {
      DistinctTail(c);
      LiveTableAt(c[1..], k);
      if k == KeyOf(c[0].id) {
        FindIs(c[1..], k, |c| - 1);
        TableAt(c[1..], k);
      }
    }
  }

  lemma LiveRefines(c: seq<Entry>)
    requires DistinctKeys(c)
    ensures DistinctKeys(Live(c))
    ensures TableOf(Live(c)) == LiveTable(TableOf(c))
  {
    LiveDistinct(c);
    forall k
      ensures k in TableOf(Live(c)) <==> k in LiveTable(TableOf(c))
      ensures k in TableOf(Live(c)) ==> TableOf(Live(c))[k] == LiveTable(TableOf(c))[k]
    {
      LiveTableAt(c, k);
    }
  }

  lemma AgeRefines(c: seq<Entry>)
    requires DistinctKeys(c)
    ensures DistinctKeys(AgeAll(c))
    ensures TableOf(AgeAll(c)) == AgeTable(TableOf(c))
  {
    var c' := AgeAll(c);
    forall k
      ensures k in TableOf(c') <==> k in AgeTable(TableOf(c))
      ensures k in TableOf(c') ==> TableOf(c')[k] == AgeTable(TableOf(c))[k]
    {
      TableAt(c, k);
      TableAt(c', k);
      FindIs(c', k, Find(c, k));
    }
  }

  lemma ExpiredRefines(c: seq<Entry>)
    requires DistinctKeys(c)
    ensures AnyExpired(c) <==> ExpiredIn(TableOf(c))
  {
    if AnyExpired(c) {
      var i :| 0 <= i < |c| && c[i].ttl == 0;
      FindDistinct(c, i);
    }
    if ExpiredIn(TableOf(c)) {
      var k :| k in TableOf(c) && TableOf(c)[k].ttl == 0;
      TableAt(c, k);
    }
  }
}
