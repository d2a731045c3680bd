// The named-entity table and its binary search (entities.c, cmp and get_named_entity).
// The comparator only looks at a prefix of the name, as long as the table key.

module EntityTable {
  import opened Options
  import opened CString

  datatype Entry = Entry(key: Text, value: Text)

  type Table = seq<Entry>

  /** A key ends in its only ';', and its value is no longer than the reference it replaces. */
  predicate ValidEntry(e: Entry) {
    && |e.key| >= 1
    && Find(e.key, SEMICOLON) == |e.key| - 1
    && e.key[0] != HASH
    && NUL !in e.key
    && |e.value| <= 1 + |e.key|
  }

  ghost predicate ValidTable(table: Table) {
    && (forall i :: 0 <= i < |table| ==> ValidEntry(table[i]))
    && (forall i, j :: 0 <= i < j < |table| ==> LexLess(table[i].key, table[j].key))
  }

  function CharAt(s: Text, i: nat): Byte {
    if i < |s| then s[i] else NUL
  }

  /** strncmp: the sign of the first difference within `n` characters, ends included. */
  function Strncmp(a: Text, b: Text, n: nat): int {
    if n == 0 then 0
    else
      var x: int, y: int := CharAt(a, 0), CharAt(b, 0);
      if x != y then x - y
      else if x == 0 then 0
      else Strncmp(a[1..], b[1..], n - 1)
  }

  function Compare(name: Text, key: Text): int {
    Strncmp(name, key, |key|)
  }

  /** The value of the first key, in table order, that the name starts with. */
  function Lookup(table: Table, name: Text): Option<Text> {
    if table == [] then None
    else if table[0].key <= name then Some(table[0].value)
    else Lookup(table[1..], name)
  }

  lemma {:induction false} CompareZeroIsPrefix(name: Text, key: Text)
    requires NUL !in key && NUL !in name
    ensures Compare(name, key) == 0 <==> key <= name
  {
    if key != [] {
      assert key[0] in key && key[0] != NUL;
      if name != [] && name[0] == key[0] {
        CompareZeroIsPrefix(name[1..], key[1..]);
        assert key == [key[0]] + key[1..] && name == [name[0]] + name[1..];
        assert key[1..] <= name[1..] ==> name == key + name[1..][|key| - 1..];
      }
    }
  }

  /**
   * The comparator is monotone along the table: once it is zero or negative at one
   * key, it is negative at every later key. Two keys can therefore not both match.
   */
  lemma {:induction false} CompareIsMonotone(name: Text, key: Text, later: Text)
    requires NUL !in key && NUL !in later
    requires |key| >= 1 && Find(key, SEMICOLON) == |key| - 1
    requires |later| >= 1 && Find(later, SEMICOLON) == |later| - 1
    requires LexLess(key, later)
    requires Compare(name, key) <= 0
    ensures Compare(name, later) < 0
  {
    assert key[0] in key && later[0] in later;
    if key[0] == later[0] && CharAt(name, 0) == key[0] {
      assert key[0] != SEMICOLON;
      CompareIsMonotone(name[1..], key[1..], later[1..]);
    }
  }

  lemma {:induction false} LookupFinds(table: Table, name: Text, i: nat)
    requires i < |table| && table[i].key <= name
    requires forall j :: 0 <= j < i ==> !(table[j].key <= name)
    ensures Lookup(table, name) == Some(table[i].value)
  {
    if i > 0 {
      LookupFinds(table[1..], name, i - 1);
    }
  }

  lemma {:induction false} LookupMisses(table: Table, name: Text)
    requires forall j :: 0 <= j < |table| ==> !(table[j].key <= name)
    ensures Lookup(table, name) == None
  {
    if table != [] {
      LookupMisses(table[1..], name);
    }
  }

  lemma {:induction false} LookupIsSound(table: Table, name: Text) returns (i: nat)
    requires Lookup(table, name).Some?
    ensures i < |table| && table[i].key <= name && Lookup(table, name) == Some(table[i].value)
  {
    if table[0].key <= name {
      i := 0;
    } else {
      var k := LookupIsSound(table[1..], name);
      i := k + 1;
    }
  }

  /** On a valid table at most one key is a prefix of a name. */
  lemma MatchIsUnique(table: Table, name: Text, i: nat, j: nat)
    requires ValidTable(table) && NUL !in name
    requires i < |table| && j < |table|
    requires table[i].key <= name && table[j].key <= name
    ensures i == j
  {
    CompareZeroIsPrefix(name, table[i].key);
    CompareZeroIsPrefix(name, table[j].key);
    if i < j {
      CompareIsMonotone(name, table[i].key, table[j].key);
    } else if j < i {
      CompareIsMonotone(name, table[j].key, table[i].key);
    }
  }

  /** A matched key ends at the first ';' of the name, where the decoder resumes. */
  lemma MatchEndsAtSemicolon(key: Text, name: Text)
    requires key <= name && |key| >= 1 && Find(key, SEMICOLON) == |key| - 1
    ensures Find(name, SEMICOLON) == |key| - 1
  {
    assert name[..|key| - 1] == key[..|key| - 1];
    FindIs(name, SEMICOLON, |key| - 1);
  }

  /** bsearch over the table: the same answer as trying every key in turn. */
  method GetNamedEntity(table: Table, name: Text) returns (entity: Option<Text>)
    requires ValidTable(table) && NUL !in name
    ensures entity == Lookup(table, name)
    ensures entity.Some? <==> exists i :: 0 <= i < |table| && table[i].key <= name
  {
    var low, high := 0, |table|;
    while low < high
      invariant 0 <= low <= high <= |table|
      invariant forall i :: 0 <= i < low ==> !(table[i].key <= name)
      invariant forall i :: high <= i < |table| ==> !(table[i].key <= name)
    {
      var middle := (low + high) / 2;
      var order := Compare(name, table[middle].key);
      CompareZeroIsPrefix(name, table[middle].key);
      if order < 0 {
        BelowMatchesNoLater(table, name, middle);
        high := middle;
      } else if order > 0 {
        AboveMatchesNoEarlier(table, name, middle);
        low := middle + 1;
      } else {
        forall j | 0 <= j < middle
          ensures !(table[j].key <= name)
        {
          if table[j].key <= name {
            MatchIsUnique(table, name, j, middle);
          }
        }
        LookupFinds(table, name, middle);
        return Some(table[middle].value);
      }
    }
    LookupMisses(table, name);
    return None;
  }

  lemma BelowMatchesNoLater(table: Table, name: Text, k: nat)
    requires ValidTable(table) && NUL !in name && k < |table| && Compare(name, table[k].key) < 0
    ensures forall i :: k <= i < |table| ==> !(table[i].key <= name)
  {
    forall i | k <= i < |table|
      ensures !(table[i].key <= name)
    {
      if k < i {
        CompareIsMonotone(name, table[k].key, table[i].key);
      }
      CompareZeroIsPrefix(name, table[i].key);
    }
  }

  lemma AboveMatchesNoEarlier(table: Table, name: Text, k: nat)
    requires ValidTable(table) && NUL !in name && k < |table| && Compare(name, table[k].key) > 0
    ensures forall i :: 0 <= i <= k ==> !(table[i].key <= name)
  {
    forall i | 0 <= i <= k
      ensures !(table[i].key <= name)
    {
      CompareZeroIsPrefix(name, table[i].key);
      if i < k && table[i].key <= name {
        CompareIsMonotone(name, table[i].key, table[k].key);
      }
    }
  }
}
