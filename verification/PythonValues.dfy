/** Dictionaries as the coordinator exchanges them: flat, apart from a threshold's `fields`. */
module PythonValues {
  datatype Scalar = Num(n: real) | Str(s: string)

  datatype Field = Field(name: string, value: Scalar)

  /** A nested dictionary keeps its insertion order, which Python's equality ignores. */
  datatype Value = Plain(v: Scalar) | Dict(fields: seq<Field>)

  type Entries = map<string, Value>

  type Message = map<string, Scalar>

  function FieldSet(fields: seq<Field>): set<Field> {
    set f | f in fields
  }

  function Names(fields: seq<Field>): set<string> {
    set f | f in fields :: f.name
  }

  predicate DistinctNames(fields: seq<Field>) {
    forall i, j | 0 <= i < j < |fields| :: fields[i].name != fields[j].name
  }

  /** Python's `==`. */
  predicate SameValue(a: Value, b: Value) {
    match (a, b)
    case (Plain(v), Plain(w)) => v == w
    case (Dict(f), Dict(g)) => FieldSet(f) == FieldSet(g)
    case _ => false
  }

  predicate SameEntries(a: Entries, b: Entries) {
    a.Keys == b.Keys && forall k | k in a :: SameValue(a[k], b[k])
  }

  /** Nested dictionaries are equal if they give the same names the same values, in whatever order. */
  lemma SameDictIff(f: seq<Field>, g: seq<Field>)
    ensures SameValue(Dict(f), Dict(g)) <==>
              forall name, v :: Field(name, v) in f <==> Field(name, v) in g
    ensures forall v :: !SameValue(Dict(f), Plain(v)) && !SameValue(Plain(v), Dict(f))
  {
    assert forall x :: x in f <==> x in FieldSet(f);
    assert forall x :: x in g <==> x in FieldSet(g);
    if forall name, v :: Field(name, v) in f <==> Field(name, v) in g {
      forall x: Field ensures x in f <==> x in g {
        assert x == Field(x.name, x.value);
      }
    }
  }

  /** Walking a dictionary: one more key has been visited. */
  lemma VisitedGrows<V>(m: map<string, V>, todo: set<string>, key: string)
    requires key in todo && key in m
    ensures (m - todo)[key := m[key]] == m - (todo - {key})
  {
  }

  lemma SameEntriesReflexive(e: Entries)
    ensures SameEntries(e, e)
  {
  }

  /** Python's str.lower() on ASCII. */
  function Lower(s: string): string {
    seq(|s|, i requires 0 <= i < |s| => if 'A' <= s[i] <= 'Z' then (s[i] as int + 32) as char else s[i])
  }

  const CAPITALS := "ABCDEFGHIJKLMNOPQRSTUVWXYZ"
  const SMALL := "abcdefghijklmnopqrstuvwxyz"

  /** Each capital becomes its small letter, and everything else stays. */
  lemma LowerByLetter(s: string)
    ensures |Lower(s)| == |s| && Lower(Lower(s)) == Lower(s)
    ensures forall i, k | 0 <= i < |s| && 0 <= k < 26 && s[i] == CAPITALS[k] :: Lower(s)[i] == SMALL[k]
    ensures forall i | 0 <= i < |s| && s[i] !in CAPITALS :: Lower(s)[i] == s[i]
  {
    forall i | 0 <= i < |s| && 'A' <= s[i] <= 'Z'
      ensures s[i] in CAPITALS
    {
      assert CAPITALS[s[i] as int - 65] == s[i];
    }
  }
}
