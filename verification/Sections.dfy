/** Sections: all stanzas of one shape, in the order of their keys. */
module Sections {
  import opened Ordered
  import opened Paths
  import opened BasicIo
  import opened Stanzas
  import opened Csets

  type Key = (FilePath, string)
  type Table = map<Key, Row>

  /** The path, and the attribute name where the stanza has one. */
  function KeyOf(shape: Shape, row: Row): Key
    requires |row| == |shape| > 0
  {
    (row[0], if |shape| > 1 && shape[1].kind == StringValue then row[1] else [])
  }

  ghost predicate EntryOk(shape: Shape, table: Table, k: Key)
    requires shape != []
  {
    k in table ==> RowOk(shape, table[k]) && KeyOf(shape, table[k]) == k
  }

  ghost predicate TableOk(shape: Shape, table: Table)
    requires shape != []
  {
    forall k {:trigger EntryOk(shape, table, k)} :: EntryOk(shape, table, k)
  }

  // ---------- keys in order ----------

  ghost predicate KeysAscend(keys: seq<Key>) {
    forall i, j :: 0 <= i < j < |keys| ==> PairLess(keys[i], keys[j])
  }

  lemma {:induction false} LeastExists(s: set<Key>)
    requires s != {}
    ensures exists m :: m in s && forall k :: k in s ==> k == m || PairLess(m, k)
    decreases |s|
  {
    var x :| x in s;
    if s == {x} {
      assert forall k :: k in s ==> k == x;
    } else {
      assert s - {x} != {};
      LeastExists(s - {x});
      var m :| m in s - {x} && forall k :: k in s - {x} ==> k == m || PairLess(m, k);
      var y := if PairLess(m, x) then m else x;
      assert y in s;
      PairTrichotomy(m, x);
      forall k | k in s ensures k == y || PairLess(y, k) {
        if k != x {
          assert k in s - {x};
          if y == x && k != m {
            PairTransitive(x, m, k);
          }
        }
      }
    }
  }

  ghost function LeastKey(s: set<Key>): (m: Key)
    requires s != {}
    ensures m in s && forall k :: k in s ==> k == m || PairLess(m, k)
  {
    LeastExists(s);
    var m :| m in s && forall k :: k in s ==> k == m || PairLess(m, k);
    m
  }

  ghost function SortedKeys(s: set<Key>): seq<Key>
    decreases |s|
  {
    if s == {} then [] else var m := LeastKey(s); [m] + SortedKeys(s - {m})
  }

  lemma {:induction false} SortedElements(s: set<Key>)
    ensures forall k :: k in SortedKeys(s) <==> k in s
    ensures KeysAscend(SortedKeys(s))
    decreases |s|
  {
    if s != {} {
      var m := LeastKey(s);
      SortedElements(s - {m});
    }
  }

  lemma AscendingHead(keys: seq<Key>)
    requires keys != [] && KeysAscend(keys)
    ensures keys[0] !in keys[1..] && KeysAscend(keys[1..])
    ensures forall k :: k in keys ==> k == keys[0] || (k in keys[1..] && PairLess(keys[0], k))
  {
    PairTrichotomy(keys[0], keys[0]);
    forall k | k in keys && k != keys[0] ensures k in keys[1..] && PairLess(keys[0], k) {
      var i :| 0 <= i < |keys| && keys[i] == k;
      assert keys[1..][i - 1] == k;
    }
    forall i | 0 <= i < |keys[1..]| ensures keys[1..][i] != keys[0] {
      assert PairLess(keys[0], keys[i + 1]);
    }
  }

  lemma {:induction false} SortedUnique(keys: seq<Key>)
    requires KeysAscend(keys)
    ensures SortedKeys(set k | k in keys) == keys
    decreases |keys|
  {
    if keys != [] {
      var s := set k | k in keys;
      assert keys[0] in s;
      AscendingHead(keys);
      PairTrichotomy(keys[0], LeastKey(s));
      assert LeastKey(s) == keys[0];
      assert s - {keys[0]} == set k | k in keys[1..];
      SortedUnique(keys[1..]);
      HeadTail(keys);
    }
  }

  // ---------- sections as tokens ----------

  function RowsTokens(shape: Shape, keys: seq<Key>, table: Table): seq<Token>
    requires forall k :: k in keys ==> k in table && |table[k]| == |shape|
  {
    if keys == [] then [] else RowTokens(shape, table[keys[0]]) + RowsTokens(shape, keys[1..], table)
  }

  /** The loop over the stanzas of one section: `prev` is the key before, an empty path standing
      for "no key before". */
  function ParseSection(shape: Shape, ts: seq<Token>, prev: Key, acc: Table): (r: Parsed<Table>)
    requires shape != []
    ensures r.Parsed? ==> |r.rest| <= |ts|
    decreases |ts|
  {
    if ts == [] || ts[0] != Sym(shape[0].symbol) then Parsed(acc, ts)
    else
      match ParseRow(shape, ts)
      case Failed => Failed
      case Parsed(row, rest) =>
        var key := KeyOf(shape, row);
        if prev.0 != [] && !PairLess(prev, key) then Failed
        else if key in acc then Failed
        else ParseSection(shape, rest, key, acc[key := row])
  }

  predicate StopsAt(shape: Shape, rest: seq<Token>)
    requires shape != []
  {
    rest == [] || rest[0] != Sym(shape[0].symbol)
  }

  function AddRows(acc: Table, keys: seq<Key>, table: Table): Table
    requires forall k :: k in keys ==> k in table
    decreases |keys|
  {
    if keys == [] then acc else AddRows(acc[keys[0] := table[keys[0]]], keys[1..], table)
  }

  lemma {:induction false} RowStart(shape: Shape, row: Row)
    requires |row| == |shape| > 0
    ensures |RowTokens(shape, row)| == 2 * |shape| && RowTokens(shape, row)[0] == Sym(shape[0].symbol)
    decreases |shape|
  {
    if |shape| > 1 {
      RowStart(shape[1..], row[1..]);
    }
  }

  /** A written section begins with its first row. */
  lemma RowFront(shape: Shape, keys: seq<Key>, table: Table, rest: seq<Token>)
    requires shape != [] && TableOk(shape, table) && keys != []
    requires forall k :: k in keys ==> k in table && |table[k]| == |shape|
    ensures var ts := RowsTokens(shape, keys, table) + rest; var row := table[keys[0]];
      && ts != [] && ts[0] == Sym(shape[0].symbol) && KeyOf(shape, row) == keys[0]
      && ParseRow(shape, ts) == Parsed(row, RowsTokens(shape, keys[1..], table) + rest)
  {
    var row, more := table[keys[0]], RowsTokens(shape, keys[1..], table) + rest;
    assert EntryOk(shape, table, keys[0]);
    RowStart(shape, row);
    ParseWrittenRow(shape, row, more);
    Associates(RowTokens(shape, row), RowsTokens(shape, keys[1..], table), rest);
  }

  /** Reading a written section gives its rows back, in whatever order they were written, as long
      as that order passes the check. */
  lemma {:induction false} ParseWrittenSection(shape: Shape, keys: seq<Key>, table: Table, rest: seq<Token>, prev: Key, acc: Table)
    requires shape != [] && TableOk(shape, table) && StopsAt(shape, rest)
    requires forall k :: k in keys ==> k in table && |table[k]| == |shape|
    requires KeysAscend(keys) && (keys != [] && prev.0 != [] ==> PairLess(prev, keys[0]))
    requires forall k :: k in keys ==> k !in acc
    ensures ParseSection(shape, RowsTokens(shape, keys, table) + rest, prev, acc) == Parsed(AddRows(acc, keys, table), rest)
    decreases |keys|
  {
    if keys == [] {
      assert RowsTokens(shape, keys, table) + rest == rest;
    } else {
      RowFront(shape, keys, table, rest);
      AscendingHead(keys);
      ParseWrittenSection(shape, keys[1..], table, rest, keys[0], acc[keys[0] := table[keys[0]]]);
    }
  }

  lemma {:induction false} AddRowsIs(acc: Table, keys: seq<Key>, table: Table)
    requires forall k :: k in keys ==> k in table
    ensures forall k {:trigger k in AddRows(acc, keys, table)} :: k in AddRows(acc, keys, table) <==> k in acc || k in keys
    ensures forall k :: k in keys ==> AddRows(acc, keys, table)[k] == table[k]
    ensures forall k :: k in acc && k !in keys ==> AddRows(acc, keys, table)[k] == acc[k]
    decreases |keys|
  {
    if keys != [] {
      AddRowsIs(acc[keys[0] := table[keys[0]]], keys[1..], table);
      assert forall k :: k in keys <==> k == keys[0] || k in keys[1..];
    }
  }

  const NoKey: Key := ([], [])

  ghost function SectionTokens(shape: Shape, table: Table): seq<Token>
    requires shape != [] && TableOk(shape, table)
  {
    SortedElements(table.Keys);
    assert forall k :: k in table ==> EntryOk(shape, table, k);
    RowsTokens(shape, SortedKeys(table.Keys), table)
  }

  /** Reading a printed section gives the table back and stops where the section ends. */
  lemma SectionRoundTrip(shape: Shape, table: Table, rest: seq<Token>)
    requires shape != [] && TableOk(shape, table) && StopsAt(shape, rest)
    ensures ParseSection(shape, SectionTokens(shape, table) + rest, NoKey, map[]) == Parsed(table, rest)
  {
    var keys := SortedKeys(table.Keys);
    SortedElements(table.Keys);
    assert forall k :: k in table ==> EntryOk(shape, table, k);
    ParseWrittenSection(shape, keys, table, rest, NoKey, map[]);
    AddRowsIs(map[], keys, table);
    assert AddRows(map[], keys, table) == table;
  }

  // ---------- what was read ----------

  /** The keys of the stanzas at the front, in the order of the text. */
  function ReadKeys(shape: Shape, ts: seq<Token>): seq<Key>
    requires shape != []
    decreases |ts|
  {
    if ts == [] || ts[0] != Sym(shape[0].symbol) || ParseRow(shape, ts).Failed? then []
    else [KeyOf(shape, ParseRow(shape, ts).value)] + ReadKeys(shape, ParseRow(shape, ts).rest)
  }

  ghost predicate Distinct(keys: seq<Key>) {
    forall i, j :: 0 <= i < j < |keys| ==> keys[i] != keys[j]
  }

  /** Every key passed the check against the one before. */
  predicate Chained(prev: Key, keys: seq<Key>)
    decreases |keys|
  {
    keys == [] || ((prev.0 == [] || PairLess(prev, keys[0])) && Chained(keys[0], keys[1..]))
  }

  ghost predicate Grew(acc: Table, keys: seq<Key>, table: Table) {
    && (forall k :: k in acc ==> k in table && table[k] == acc[k])
    && (forall k :: k in table <==> k in acc || k in keys)
    && (forall k :: k in keys ==> k !in acc)
  }

  lemma {:induction false} ReadGrows(shape: Shape, ts: seq<Token>, prev: Key, acc: Table)
    requires shape != [] && ParseSection(shape, ts, prev, acc).Parsed?
    ensures Grew(acc, ReadKeys(shape, ts), ParseSection(shape, ts, prev, acc).value)
    ensures Distinct(ReadKeys(shape, ts)) && Chained(prev, ReadKeys(shape, ts))
    ensures StopsAt(shape, ParseSection(shape, ts, prev, acc).rest)
    decreases |ts|
  {
    if ts != [] && ts[0] == Sym(shape[0].symbol) {
      var row, rest := ParseRow(shape, ts).value, ParseRow(shape, ts).rest;
      var k := KeyOf(shape, row);
      ReadGrows(shape, rest, k, acc[k := row]);
      var keys, more := ReadKeys(shape, ts), ReadKeys(shape, rest);
      assert keys == [k] + more && keys[1..] == more;
      assert k in acc[k := row];
    }
  }

  lemma {:induction false} ReadTableOk(shape: Shape, ts: seq<Token>, prev: Key, acc: Table)
    requires shape != [] && AllLexable(ts) && ParseSection(shape, ts, prev, acc).Parsed? && TableOk(shape, acc)
    ensures TableOk(shape, ParseSection(shape, ts, prev, acc).value)
    decreases |ts|
  {
    if ts != [] && ts[0] == Sym(shape[0].symbol) {
      var row, rest := ParseRow(shape, ts).value, ParseRow(shape, ts).rest;
      ParsedRowOk(shape, ts);
      var k := KeyOf(shape, row);
      var acc' := acc[k := row];
      forall q ensures EntryOk(shape, acc', q) {
        assert EntryOk(shape, acc, q);
      }
      ReadTableOk(shape, rest, k, acc');
    }
  }

  // ---------- printing what was read ----------

  lemma EvenBoth(a: seq<Token>, b: seq<Token>)
    ensures AllEven(a + b) <==> AllEven(a) && AllEven(b)
  {
    if AllEven(a + b) {
      forall i | 0 <= i < |a| ensures EvenHex(a[i]) {
        assert (a + b)[i] == a[i];
      }
      forall i | 0 <= i < |b| ensures EvenHex(b[i]) {
        assert (a + b)[|a| + i] == b[i];
      }
    }
  }

  lemma SameBoth<T>(a: seq<T>, b: seq<T>, c: seq<T>, d: seq<T>)
    requires |a| == |c|
    ensures a + b == c + d <==> a == c && b == d
  {
    if a + b == c + d {
      assert a == (a + b)[..|a|] && c == (c + d)[..|a|] && b == (a + b)[|a|..] && d == (c + d)[|a|..];
    }
  }

  ghost predicate Rows(shape: Shape, keys: seq<Key>, table: Table) {
    forall k :: k in keys ==> k in table && |table[k]| == |shape|
  }

  /** Is there one more stanza to read? */
  predicate RowAhead(shape: Shape, ts: seq<Token>)
    requires shape != []
  {
    ts != [] && ts[0] == Sym(shape[0].symbol) && ParseRow(shape, ts).Parsed?
  }

  function ReadRest(shape: Shape, ts: seq<Token>): (rest: seq<Token>)
    requires shape != []
    ensures |rest| <= |ts|
    decreases |ts|
  {
    if RowAhead(shape, ts) then ReadRest(shape, ParseRow(shape, ts).rest) else ts
  }

  /** Every stanza read is in the table under its key. */
  predicate Holds(shape: Shape, ts: seq<Token>, table: Table)
    requires shape != []
    decreases |ts|
  {
    RowAhead(shape, ts) ==>
      var r := ParseRow(shape, ts);
      var k := KeyOf(shape, r.value);
      k in table && table[k] == r.value && Holds(shape, r.rest, table)
  }

  lemma {:induction false} ReadHolds(shape: Shape, ts: seq<Token>, prev: Key, acc: Table)
    requires shape != [] && ParseSection(shape, ts, prev, acc).Parsed?
    ensures Holds(shape, ts, ParseSection(shape, ts, prev, acc).value)
    ensures ParseSection(shape, ts, prev, acc).rest == ReadRest(shape, ts)
    decreases |ts|
  {
    if ts != [] && ts[0] == Sym(shape[0].symbol) {
      var row, rest := ParseRow(shape, ts).value, ParseRow(shape, ts).rest;
      var k := KeyOf(shape, row);
      ReadHolds(shape, rest, k, acc[k := row]);
      ReadGrows(shape, rest, k, acc[k := row]);
      assert k in acc[k := row];
    }
  }

  lemma {:induction false} HoldsRows(shape: Shape, ts: seq<Token>, table: Table)
    requires shape != [] && Holds(shape, ts, table)
    ensures Rows(shape, ReadKeys(shape, ts), table)
    decreases |ts|
  {
    if RowAhead(shape, ts) {
      HoldsRows(shape, ParseRow(shape, ts).rest, table);
    }
  }

  /** The tokens of the stanzas read. */
  function ReadHead(shape: Shape, ts: seq<Token>): seq<Token>
    requires shape != []
    decreases |ts|
  {
    if RowAhead(shape, ts) then ts[..2 * |shape|] + ReadHead(shape, ParseRow(shape, ts).rest) else []
  }

  lemma {:induction false} ReadAll(shape: Shape, ts: seq<Token>)
    requires shape != [] && AllLexable(ts)
    ensures ReadHead(shape, ts) + ReadRest(shape, ts) == ts
    decreases |ts|
  {
    if RowAhead(shape, ts) {
      var rest := ParseRow(shape, ts).rest;
      ParsedRowOk(shape, ts);
      ReadAll(shape, rest);
      Glue(ts, 2 * |shape|, ReadHead(shape, rest), ReadRest(shape, rest));
    }
  }

  lemma Glue(ts: seq<Token>, m: nat, a: seq<Token>, b: seq<Token>)
    requires m <= |ts| && a + b == ts[m..]
    ensures (ts[..m] + a) + b == ts
  {
    assert (ts[..m] + a) + b == ts[..m] + (a + b);
  }

  /** The stanzas read, written back in the order of the text, are the same tokens exactly when
      all hex tokens are even. */
  lemma {:induction false} ReadTokens(shape: Shape, ts: seq<Token>, table: Table)
    requires shape != [] && AllLexable(ts) && Holds(shape, ts, table) && Rows(shape, ReadKeys(shape, ts), table)
    ensures |ReadHead(shape, ts)| == |RowsTokens(shape, ReadKeys(shape, ts), table)|
    ensures ReadHead(shape, ts) == RowsTokens(shape, ReadKeys(shape, ts), table) <==> AllEven(ReadHead(shape, ts))
    decreases |ts|
  {
    if RowAhead(shape, ts) {
      var row, rest := ParseRow(shape, ts).value, ParseRow(shape, ts).rest;
      assert ReadKeys(shape, ts)[1..] == ReadKeys(shape, rest);
      HoldsRows(shape, rest, table);
      ParsedRowOk(shape, ts);
      ReadTokens(shape, rest, table);
      WriteParsedRow(shape, ts);
      RowStart(shape, row);
      EvenBoth(ts[..2 * |shape|], ReadHead(shape, rest));
      SameBoth(ts[..2 * |shape|], ReadHead(shape, rest), RowTokens(shape, row), RowsTokens(shape, ReadKeys(shape, rest), table));
    }
  }

  // ---------- the order of what was read ----------

  /** The attribute names of the keys on the root path. */
  function RootNames(keys: seq<Key>): seq<string> {
    if keys == [] then []
    else if keys[0].0 == [] then [keys[0].1] + RootNames(keys[1..])
    else RootNames(keys[1..])
  }

  ghost predicate NamesAscend(names: seq<string>) {
    forall i, j :: 0 <= i < j < |names| ==> BytesLess(names[i], names[j])
  }

  lemma {:induction false} NoRootLater(prev: Key, keys: seq<Key>)
    requires prev.0 != [] && Chained(prev, keys)
    ensures RootNames(keys) == [] && KeysAscend([prev] + keys)
    decreases |keys|
  {
    if keys != [] {
      NoRootLater(keys[0], keys[1..]);
      AscendingCons(prev, keys);
    }
  }

  lemma AscendingCons(k: Key, keys: seq<Key>)
    requires keys != [] && PairLess(k, keys[0]) && KeysAscend([keys[0]] + keys[1..])
    ensures KeysAscend([k] + keys)
  {
    assert [keys[0]] + keys[1..] == keys;
    var all := [k] + keys;
    forall i, j | 0 <= i < j < |all| ensures PairLess(all[i], all[j]) {
      if i == 0 && j > 1 {
        assert PairLess(keys[0], keys[j - 1]);
        PairTransitive(k, keys[0], keys[j - 1]);
      } else if i > 0 {
        assert PairLess(keys[i - 1], keys[j - 1]);
      }
    }
  }

  /** A section that passed the check is in order exactly when its root keys are: the check
      compares nothing after a root key. */
  lemma {:induction false} OrderedWhenRootIs(prev: Key, keys: seq<Key>)
    requires Chained(prev, keys)
    ensures KeysAscend(keys) <==> NamesAscend(RootNames(keys))
    decreases |keys|
  {
    if keys != [] {
      var k, more := keys[0], keys[1..];
      assert keys == [k] + more;
      if k.0 != [] {
        NoRootLater(k, more);
      } else {
        OrderedWhenRootIs(k, more);
        RootFirst(k, more);
      }
    }
  }

  lemma RootFirst(k: Key, more: seq<Key>)
    requires k.0 == [] && Chained(k, more)
    requires KeysAscend(more) <==> NamesAscend(RootNames(more))
    ensures KeysAscend([k] + more) <==> NamesAscend([k.1] + RootNames(more))
  {
    var all, names := [k] + more, [k.1] + RootNames(more);
    if KeysAscend(all) {
      assert KeysAscend(more) by {
        forall i, j | 0 <= i < j < |more| ensures PairLess(more[i], more[j]) {
          assert all[i + 1] == more[i] && all[j + 1] == more[j];
        }
      }
      forall i | 0 <= i < |RootNames(more)| ensures BytesLess(k.1, RootNames(more)[i]) {
        RootNameFrom(more, i);
        var q := ([], RootNames(more)[i]);
        var j :| 0 <= j < |more| && more[j] == q;
        assert PairLess(all[0], all[j + 1]);
        LessTrichotomy([], []);
      }
    }
    if NamesAscend(names) {
      assert NamesAscend(RootNames(more)) by {
        forall i, j | 0 <= i < j < |RootNames(more)| ensures BytesLess(RootNames(more)[i], RootNames(more)[j]) {
          assert names[i + 1] == RootNames(more)[i] && names[j + 1] == RootNames(more)[j];
        }
      }
      if more != [] {
        if more[0].0 == [] {
          assert names[1] == more[0].1 && BytesLess(names[0], names[1]);
        }
        assert more == [more[0]] + more[1..];
        AscendingCons(k, more);
      }
    }
  }

  lemma {:induction false} RootNameFrom(keys: seq<Key>, i: nat)
    requires i < |RootNames(keys)|
    ensures ([], RootNames(keys)[i]) in keys
    decreases |keys|
  {
    if keys[0].0 != [] {
      RootNameFrom(keys[1..], i);
    } else if i > 0 {
      RootNameFrom(keys[1..], i - 1);
    } else {
      assert keys[0] == ([], RootNames(keys)[0]);
    }
  }

  /** Where keys are paths alone, the check suffices: a second root key is a duplicate. */
  lemma PathKeysOrdered(keys: seq<Key>)
    requires Distinct(keys) && forall k :: k in keys ==> k.1 == []
    ensures NamesAscend(RootNames(keys))
  {
    OneRoot(keys);
  }

  lemma {:induction false} OneRoot(keys: seq<Key>)
    requires Distinct(keys) && forall k :: k in keys ==> k.1 == []
    ensures |RootNames(keys)| <= 1
    decreases |keys|
  {
    if keys != [] {
      if keys[0].0 == [] {
        assert keys[0] == NoKey;
        forall k | k in keys[1..] ensures k != NoKey {
        }
        NoRoot(keys[1..]);
      } else {
        OneRoot(keys[1..]);
      }
    }
  }

  lemma {:induction false} NoRoot(keys: seq<Key>)
    requires forall k :: k in keys ==> k.1 == [] && k != NoKey
    ensures RootNames(keys) == []
    decreases |keys|
  {
    if keys != [] {
      assert keys[0] in keys;
      NoRoot(keys[1..]);
    }
  }

  // ---------- printing what was read, in order ----------

  lemma {:induction false} ReadWritten(shape: Shape, keys: seq<Key>, table: Table, rest: seq<Token>)
    requires shape != [] && TableOk(shape, table) && StopsAt(shape, rest) && Rows(shape, keys, table)
    ensures ReadKeys(shape, RowsTokens(shape, keys, table) + rest) == keys
    decreases |keys|
  {
    if keys == [] {
      assert RowsTokens(shape, keys, table) + rest == rest;
    } else {
      RowFront(shape, keys, table, rest);
      ReadWritten(shape, keys[1..], table, rest);
      HeadTail(keys);
    }
  }

  function Times(a: nat, n: nat): nat {
    if n == 0 then 0 else a + Times(a, n - 1)
  }

  lemma {:induction false} RowsLength(shape: Shape, keys: seq<Key>, table: Table)
    requires shape != [] && Rows(shape, keys, table)
    ensures |RowsTokens(shape, keys, table)| == Times(2 * |shape|, |keys|)
    decreases |keys|
  {
    if keys != [] {
      RowStart(shape, table[keys[0]]);
      RowsLength(shape, keys[1..], table);
    }
  }

  lemma {:induction false} SortedLength(s: set<Key>)
    ensures |SortedKeys(s)| == |s|
    decreases |s|
  {
    if s != {} {
      SortedLength(s - {LeastKey(s)});
    }
  }

  lemma {:induction false} DistinctLength(keys: seq<Key>)
    requires Distinct(keys)
    ensures |set k | k in keys| == |keys|
    decreases |keys|
  {
    if keys != [] {
      DistinctLength(keys[1..]);
      assert (set k | k in keys) == (set k | k in keys[1..]) + {keys[0]};
      assert keys[0] !in keys[1..];
    }
  }

  /** What one section of the text reads as. */
  ghost predicate SectionRead(shape: Shape, ts: seq<Token>, table: Table, rest: seq<Token>)
    requires shape != []
  {
    AllLexable(ts) && ParseSection(shape, ts, NoKey, map[]) == Parsed(table, rest)
  }

  lemma SectionFacts(shape: Shape, ts: seq<Token>, table: Table, rest: seq<Token>)
    requires shape != [] && SectionRead(shape, ts, table, rest)
    ensures TableOk(shape, table) && Rows(shape, ReadKeys(shape, ts), table)
    ensures table.Keys == set k | k in ReadKeys(shape, ts)
    ensures Distinct(ReadKeys(shape, ts)) && Chained(NoKey, ReadKeys(shape, ts)) && StopsAt(shape, rest)
    ensures ReadHead(shape, ts) + rest == ts && Holds(shape, ts, table)
  {
    ReadGrows(shape, ts, NoKey, map[]);
    ReadHolds(shape, ts, NoKey, map[]);
    ReadTableOk(shape, ts, NoKey, map[]);
    HoldsRows(shape, ts, table);
    ReadAll(shape, ts);
  }

  lemma OrderedPrint(shape: Shape, keys: seq<Key>, table: Table, head: seq<Token>, rest: seq<Token>)
    requires shape != [] && TableOk(shape, table) && Rows(shape, keys, table) && StopsAt(shape, rest)
    requires table.Keys == set k | k in keys
    requires head == RowsTokens(shape, keys, table) <==> AllEven(head)
    requires ReadKeys(shape, head + rest) == keys
    ensures head == SectionTokens(shape, table) <==> AllEven(head) && KeysAscend(keys)
  {
    SortedRows(shape, table);
    if KeysAscend(keys) {
      SortedUnique(keys);
    }
    if head == SectionTokens(shape, table) {
      SortedElements(table.Keys);
      ReadWritten(shape, SortedKeys(table.Keys), table, rest);
    }
  }

  lemma SectionLength(shape: Shape, ts: seq<Token>, table: Table, rest: seq<Token>)
    requires shape != [] && SectionRead(shape, ts, table, rest)
    ensures TableOk(shape, table) && |SectionTokens(shape, table)| == |ts| - |rest|
  {
    var keys := ReadKeys(shape, ts);
    SectionFacts(shape, ts, table, rest);
    ReadTokens(shape, ts, table);
    SortedRows(shape, table);
    RowsLength(shape, keys, table);
    RowsLength(shape, SortedKeys(table.Keys), table);
    SortedLength(table.Keys);
    DistinctLength(keys);
  }

  lemma SameTail(a: seq<Token>, b: seq<Token>, rest: seq<Token>)
    requires a + rest == b + rest
    ensures a == b
  {
    assert |a + rest| == |b + rest|;
    assert a == (a + rest)[..|a|] && b == (b + rest)[..|a|];
  }

  lemma HeadEven(shape: Shape, head: seq<Token>, rest: seq<Token>, table: Table)
    requires shape != [] && SectionRead(shape, head + rest, table, rest)
    requires Rows(shape, ReadKeys(shape, head + rest), table)
    ensures head == RowsTokens(shape, ReadKeys(shape, head + rest), table) <==> AllEven(head)
  {
    var ts := head + rest;
    SectionFacts(shape, ts, table, rest);
    ReadTokens(shape, ts, table);
    SameTail(ReadHead(shape, ts), head, rest);
  }

  /** A section is printed back as the tokens it was read from exactly when its hex tokens are even
      and its root keys were in order. */
  lemma SectionPrinted(shape: Shape, head: seq<Token>, rest: seq<Token>, table: Table)
    requires shape != [] && SectionRead(shape, head + rest, table, rest)
    ensures TableOk(shape, table)
    ensures head == SectionTokens(shape, table) <==> AllEven(head) && NamesAscend(RootNames(ReadKeys(shape, head + rest)))
  {
    SectionFacts(shape, head + rest, table, rest);
    OrderedWhenRootIs(NoKey, ReadKeys(shape, head + rest));
    HeadEven(shape, head, rest, table);
    OrderedPrint(shape, ReadKeys(shape, head + rest), table, head, rest);
  }

  lemma SortedRows(shape: Shape, table: Table)
    requires shape != [] && TableOk(shape, table)
    ensures Rows(shape, SortedKeys(table.Keys), table)
  {
    SortedElements(table.Keys);
    assert forall k :: k in table ==> EntryOk(shape, table, k);
  }
}
