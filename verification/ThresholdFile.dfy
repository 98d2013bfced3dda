/** Saving the thresholds to a file and loading them again when the coordinator starts. */
module ThresholdFile {
  import opened PythonValues

  type Contents = map<string, Entries>

  function Tagged(key: string, e: Entries): Entries {
    e["id" := Plain(Str(key))]
  }

  /** Ids in a file are strings, because they come from the paths of requests. */
  predicate StringIds(list: seq<Entries>) {
    forall e: Entries | e in list && "id" in e :: e["id"].Plain? && e["id"].v.Str?
  }

  function Decimal(n: nat): string {
    var digit := ['0' + (n % 10) as char];
    if n < 10 then digit else Decimal(n / 10) + digit
  }

  function KeyOf(e: Entries, index: nat, prefix: string): string
    requires "id" in e ==> e["id"].Plain? && e["id"].v.Str?
  {
    if "id" in e then e["id"].v.s else prefix + Decimal(index)
  }

  /** What a list of loaded thresholds amounts to; a repeated id keeps the last entry. */
  function Extract(list: seq<Entries>, prefix: string): Contents
    requires StringIds(list)
  {
    if list == [] then map[]
    else
      var n := |list| - 1;
      assert forall e: Entries | e in list[..n] :: e in list;
      Extract(list[..n], prefix)[KeyOf(list[n], n, prefix) := WithoutId(list[n])]
  }

  function WithoutId(e: Entries): Entries {
    e - {"id"}
  }

  function AllWithoutId(contents: Contents): Contents {
    map k | k in contents :: WithoutId(contents[k])
  }

  // ----- Ids by position -----

  /** The number that decimal digits stand for. */
  function NumberOf(digits: string): int {
    if digits == [] then 0 else 10 * NumberOf(digits[..|digits| - 1]) + (digits[|digits| - 1] as int - '0' as int)
  }

  lemma OneMoreDigit(digits: string, n: nat)
    requires n < 10
    ensures NumberOf(digits + ['0' + n as char]) == 10 * NumberOf(digits) + n
  {
    assert (digits + ['0' + n as char])[..|digits|] == digits;
  }

  /** The digits of a number stand for it, so that different positions have different digits. */
  lemma {:induction false} DecimalReadsBack(n: nat)
    ensures NumberOf(Decimal(n)) == n
  {
    if n < 10 {
      OneMoreDigit([], n);
      assert [] + ['0' + n as char] == Decimal(n);
    } else {
      DecimalReadsBack(n / 10);
      OneMoreDigit(Decimal(n / 10), n % 10);
    }
  }

  /** One digit is written as itself, and further ones follow the first. */
  lemma DecimalDigits(n: nat)
    requires n < 10
    ensures Decimal(n) == ["0123456789"[n]]
    ensures forall m: nat | m > 0 :: Decimal(10 * m + n) == Decimal(m) + Decimal(n)
  {
    assert "0123456789"[n] == '0' + n as char;
  }

  lemma DefaultIdsDiffer(prefix: string, i: nat, j: nat)
    requires prefix + Decimal(i) == prefix + Decimal(j)
    ensures i == j
  {
    hide Decimal, NumberOf;
    DecimalReadsBack(i);
    DecimalReadsBack(j);
    assert (prefix + Decimal(i))[|prefix|..] == Decimal(i) && (prefix + Decimal(j))[|prefix|..] == Decimal(j);
  }

  /** Entry `i` of the list has the id, and no later one has. */
  ghost predicate HasLast(list: seq<Entries>, prefix: string, key: string, i: nat)
    requires i < |list| && StringIds(list)
  {
    HasKey(list, prefix, key, i) && forall j | i < j < |list| :: !HasKey(list, prefix, key, j)
  }

  /** Its own id if it has one, else the prefix with its position. */
  ghost predicate HasKey(list: seq<Entries>, prefix: string, key: string, i: nat)
    requires i < |list| && StringIds(list)
  {
    if "id" in list[i] then list[i]["id"] == Plain(Str(key)) else key == prefix + Decimal(i)
  }

  ghost predicate IsWithoutId(loaded: Entries, e: Entries) {
    "id" !in loaded && loaded.Keys == e.Keys - {"id"} && forall k | k in e && k != "id" :: loaded[k] == e[k]
  }

  lemma HasKeyStays(list: seq<Entries>, prefix: string, key: string)
    requires list != [] && StringIds(list)
    ensures var n := |list| - 1;
            && (HasKey(list, prefix, key, n) <==> KeyOf(list[n], n, prefix) == key)
            && IsWithoutId(WithoutId(list[n]), list[n])
            && StringIds(list[..n])
            && forall i: nat | i < n :: HasKey(list[..n], prefix, key, i) <==> HasKey(list, prefix, key, i)
  {
    hide Decimal;
  }

  /** An id is loaded if some entry has it, with the last entry that has it, less that id. */
  lemma {:induction false} ExtractByPosition(list: seq<Entries>, prefix: string, key: string)
    requires StringIds(list)
    ensures key in Extract(list, prefix) <==> exists i: nat :: i < |list| && HasKey(list, prefix, key, i)
    ensures forall i: nat | i < |list| && HasLast(list, prefix, key, i) ::
              key in Extract(list, prefix) && IsWithoutId(Extract(list, prefix)[key], list[i])
  {
    hide Decimal, HasKey, KeyOf, IsWithoutId, WithoutId;
    if list != [] {
      var n := |list| - 1;
      HasKeyStays(list, prefix, key);
      ExtractByPosition(list[..n], prefix, key);
      forall i: nat | i < n && HasLast(list, prefix, key, i) ensures HasLast(list[..n], prefix, key, i) {
      }
    }
  }

  /** A list without any ids loses nothing: every entry is loaded, under the prefix and its position. */
  lemma NoneIsLost(list: seq<Entries>, prefix: string, i: nat)
    requires i < |list| && forall e: Entries | e in list :: "id" !in e
    ensures prefix + Decimal(i) in Extract(list, prefix) && Extract(list, prefix)[prefix + Decimal(i)] == list[i]
  {
    hide Decimal, Extract;
    var key := prefix + Decimal(i);
    ExtractByPosition(list, prefix, key);
    assert list[i] in list;
    forall j | i < j < |list| ensures !HasKey(list, prefix, key, j) {
      assert list[j] in list;
      if key == prefix + Decimal(j) {
        DefaultIdsDiffer(prefix, i, j);
      }
    }
    assert HasLast(list, prefix, key, i);
  }

  method ExtractThresholds(list: seq<Entries>, prefix: string) returns (thresholds: Contents)
    requires StringIds(list)
    ensures thresholds == Extract(list, prefix)
  {
    thresholds := map[];
    for i := 0 to |list|
      invariant StringIds(list[..i]) && thresholds == Extract(list[..i], prefix)
    {
      assert list[..i + 1][..i] == list[..i] && list[i] in list;
      if "id" in list[i] {
        thresholds := thresholds[list[i]["id"].v.s := list[i] - {"id"}];
      } else {
        thresholds := thresholds[prefix + Decimal(i) := list[i]];
        assert list[i] - {"id"} == list[i];
      }
    }
    assert list[..|list|] == list;
  }

  /** The list holds each threshold once, carrying its key as its id. */
  ghost predicate IsSaved(list: seq<Entries>, contents: Contents) {
    exists keys: seq<string> :: ListsKeys(list, keys, contents)
  }

  ghost predicate ListsKeys(list: seq<Entries>, keys: seq<string>, contents: Contents) {
    && |keys| == |list|
    && if list == [] then contents == map[]
       else
         var n := |list| - 1;
         && keys[n] in contents
         && list[n] == Tagged(keys[n], contents[keys[n]])
         && ListsKeys(list[..n], keys[..n], contents - {keys[n]})
  }

  /** Works on deep copies: the live thresholds are values here, and cannot be changed. */
  method ThresholdsToFile(live: Contents) returns (list: seq<Entries>)
    ensures IsSaved(list, live)
  {
    var copies := live;
    var todo := live.Keys;
    while todo != {}
      invariant todo <= live.Keys == copies.Keys
      invariant forall k | k in live :: copies[k] == if k in todo then live[k] else Tagged(k, live[k])
    {
      var key :| key in todo;
      copies := copies[key := copies[key]["id" := Plain(Str(key))]];
      todo := todo - {key};
    }
    list := ListValues(copies, live);
  }

  /** The values of a dictionary, in the order in which it is walked. */
  method ListValues(copies: Contents, ghost live: Contents) returns (list: seq<Entries>)
    requires copies.Keys == live.Keys && forall k | k in live :: copies[k] == Tagged(k, live[k])
    ensures IsSaved(list, live)
  {
    list := [];
    ghost var keys := [];
    ghost var listed: Contents := map[];
    var todo := copies.Keys;
    while todo != {}
      invariant todo <= live.Keys && listed == live - todo
      invariant ListsKeys(list, keys, listed)
    {
      var key :| key in todo;
      AppendListsKeys(list, keys, listed, key, live[key]);
      VisitedGrows(live, todo, key);
      listed := listed[key := live[key]];
      list, keys := list + [copies[key]], keys + [key];
      todo := todo - {key};
    }
    assert listed == live;
  }

  lemma AppendListsKeys(list: seq<Entries>, keys: seq<string>, contents: Contents, key: string, e: Entries)
    requires ListsKeys(list, keys, contents) && key !in contents
    ensures ListsKeys(list + [Tagged(key, e)], keys + [key], contents[key := e])
  {
    assert (list + [Tagged(key, e)])[..|list|] == list;
    assert (keys + [key])[..|keys|] == keys;
    assert contents[key := e] - {key} == contents;
  }

  lemma TagIsDropped(key: string, e: Entries)
    ensures WithoutId(Tagged(key, e)) == WithoutId(e)
    ensures WithoutId(e) == e <==> "id" !in e
  {
  }

  lemma {:induction false} ExtractOfKeys(list: seq<Entries>, keys: seq<string>, contents: Contents, prefix: string)
    requires ListsKeys(list, keys, contents)
    ensures StringIds(list)
    ensures Extract(list, prefix) == AllWithoutId(contents)
    decreases |list|
  {
    if list != [] {
      var n := |list| - 1;
      ExtractOfKeys(list[..n], keys[..n], contents - {keys[n]}, prefix);
      TagIsDropped(keys[n], contents[keys[n]]);
      assert KeyOf(list[n], n, prefix) == keys[n];
      assert AllWithoutId(contents) == AllWithoutId(contents - {keys[n]})[keys[n] := WithoutId(contents[keys[n]])];
    }
  }

  /** Loading a saved file gives back every threshold, without any `id` entry of its own. */
  lemma LoadAfterSave(list: seq<Entries>, contents: Contents, prefix: string)
    requires IsSaved(list, contents)
    ensures StringIds(list)
    ensures Extract(list, prefix) == AllWithoutId(contents)
  {
    var keys :| ListsKeys(list, keys, contents);
    ExtractOfKeys(list, keys, contents, prefix);
  }

  /** Save and load is the identity exactly if no threshold carries an `id` entry of its own. */
  lemma SaveLoadIsIdentityIff(list: seq<Entries>, contents: Contents, prefix: string)
    requires IsSaved(list, contents)
    ensures StringIds(list)
    ensures Extract(list, prefix) == contents <==> forall k | k in contents :: "id" !in contents[k]
  {
    LoadAfterSave(list, contents, prefix);
    forall k | k in contents
      ensures AllWithoutId(contents)[k] == contents[k] <==> "id" !in contents[k]
    {
      TagIsDropped(k, contents[k]);
    }
    assert AllWithoutId(contents) == contents <==> forall k | k in contents :: AllWithoutId(contents)[k] == contents[k];
  }

  /** A threshold with an `id` entry comes back without it, under the id it was stored as. */
  lemma OwnIdIsLost(key: string, own: string, prefix: string)
    ensures var contents: Contents := map[key := map["id" := Plain(Str(own))]];
            var list := [map["id" := Plain(Str(key))]];
            IsSaved(list, contents) && StringIds(list) && Extract(list, prefix) == map[key := map[]] != contents
  {
    var e: Entries := map["id" := Plain(Str(own))];
    var contents: Contents := map[key := e];
    assert ListsKeys([], [], map[]) && contents == map[][key := e];
    assert Tagged(key, e) == map["id" := Plain(Str(key))];
    AppendListsKeys([], [], map[], key, e);
    assert [] + [Tagged(key, e)] == [Tagged(key, e)] && [] + [key] == [key];
    assert ListsKeys([Tagged(key, e)], [key], contents);
    LoadAfterSave([Tagged(key, e)], contents, prefix);
    assert WithoutId(e) == map[] && AllWithoutId(contents) == map[key := map[]];
    assert contents[key] != map[];
  }
}
