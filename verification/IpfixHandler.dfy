/**
 * The IPFIX message handler. Thresholds are objects that the northbound interface changes in
 * place; the handler finds them through an index by field names, built from a shallow copy of
 * the shared dictionary, and rebuilds it when the copy and the dictionary compare unequal.
 */
module IpfixHandler {
  import opened Options
  import opened PythonValues
  import opened ThresholdMatching
  import opened FlowRates

  /** A threshold dictionary: an object with identity. */
  class Threshold {
    var entries: Entries

    constructor (entries: Entries)
      ensures this.entries == entries
    {
      this.entries := entries;
    }
  }

  /** The dictionary from ids to thresholds that the handler and the interface share. */
  class ThresholdDict {
    var items: map<string, Threshold>

    constructor ()
      ensures items == map[]
    {
      items := map[];
    }

    function Contents(): map<string, Entries>
      reads this, items.Values
    {
      map k | k in items :: items[k].entries
    }
  }

  ghost predicate AllWellFormed(thresholds: map<string, Threshold>)
    reads thresholds.Values
  {
    forall k | k in thresholds :: WellFormed(thresholds[k].entries)
  }

  /** A mask is the tuple of the field names of a threshold, in its own order. */
  type Mask = seq<string>

  function MaskOf(e: Entries): Mask
    requires "fields" in e && e["fields"].Dict?
  {
    var fields := e["fields"].fields;
    seq(|fields|, i requires 0 <= i < |fields| => fields[i].name)
  }

  function NamesIn(mask: Mask): set<string> {
    set name | name in mask
  }

  lemma MaskHasNames(e: Entries)
    requires "fields" in e && e["fields"].Dict?
    ensures NamesIn(MaskOf(e)) == Names(e["fields"].fields)
  {
    var fields := e["fields"].fields;
    forall name
      ensures name in NamesIn(MaskOf(e)) <==> name in Names(fields)
    {
      if name in Names(fields) {
        var i :| 0 <= i < |fields| && fields[i].name == name;
        assert MaskOf(e)[i] == name;
      }
    }
  }

  /** Each loaded threshold stands in the index exactly once: under its home mask. */
  ghost predicate IsIndex(loaded: map<string, Threshold>, masks: map<Mask, seq<Threshold>>,
                          ids: map<Mask, seq<string>>, home: map<string, Mask>)
  {
    && masks.Keys == ids.Keys
    && (forall m | m in masks :: Lists(loaded, masks[m], ids[m], home, m))
    && (forall id | id in loaded :: id in home && home[id] in ids && id in ids[home[id]])
  }

  ghost predicate Lists(loaded: map<string, Threshold>, states: seq<Threshold>, ids: seq<string>,
                        home: map<string, Mask>, m: Mask)
  {
    && |states| == |ids|
    && (forall i | 0 <= i < |ids| ::
          ids[i] in loaded && states[i] == loaded[ids[i]] && ids[i] in home && home[ids[i]] == m)
    && (forall i, j | 0 <= i < j < |ids| :: ids[i] != ids[j])
  }

  lemma AddKeepsIndex(loaded: map<string, Threshold>, masks: map<Mask, seq<Threshold>>,
                      ids: map<Mask, seq<string>>, home: map<string, Mask>, id: string, state: Threshold, mask: Mask)
    requires IsIndex(loaded, masks, ids, home) && id !in loaded
    ensures IsIndex(loaded[id := state],
                    masks[mask := (if mask in masks then masks[mask] else []) + [state]],
                    ids[mask := (if mask in ids then ids[mask] else []) + [id]],
                    home[id := mask])
  {
    var ids' := ids[mask := (if mask in ids then ids[mask] else []) + [id]];
    var home' := home[id := mask];
    assert ids'[mask][|ids'[mask]| - 1] == id;
    forall k | k in loaded[id := state]
      ensures k in home' && home'[k] in ids' && k in ids'[home'[k]]
    {
      if k != id && home[k] == mask {
        var i :| 0 <= i < |ids[mask]| && ids[mask][i] == k;
        assert ids'[mask][i] == k;
      }
    }
  }

  datatype TreatmentFields = OwnFields(fields: Value) | WholeMessage(message: Message)

  datatype Reaction =
    | KeyErrorRaised
    | TypeErrorRaised
    | Unrecognised
    | NoThresholdFound
    | NotTriggered(state: Threshold)
    | Treated(state: Threshold, fields: TreatmentFields)

  class IPFIX {
    const thresholds: ThresholdDict
    const rates: RateTables
    const inSubnet: SubnetTest

    var loaded: map<string, Threshold>
    var masks: map<Mask, seq<Threshold>>

    ghost var ids: map<Mask, seq<string>>  // the id of each threshold in the index
    ghost var home: map<string, Mask>      // the mask under which it was put

    ghost predicate Valid()
      reads this, rates, thresholds, thresholds.items.Values, loaded.Values
    {
      && rates.Valid()
      && IsIndex(loaded, masks, ids, home)
      && AllWellFormed(loaded)
      && AllWellFormed(thresholds.items)
    }

    /**
     * Every indexed threshold still has the field names it was put under, apart from the keys
     * that every message has which is looked up at all.
     */
    ghost predicate NamesAgree()
      reads this, loaded.Values
    {
      forall id | id in loaded :: id in home && NameSetIs(loaded[id].entries, NamesIn(home[id]))
    }

    /** The comparison that decides against reloading. */
    predicate LooksCurrent()
      reads this, thresholds, thresholds.items.Values, loaded.Values
    {
      && loaded.Keys == thresholds.items.Keys
      && forall k | k in loaded :: SameEntries(loaded[k].entries, thresholds.items[k].entries)
    }

    constructor (thresholds: ThresholdDict, inSubnet: SubnetTest)
      requires AllWellFormed(thresholds.items)
      ensures this.thresholds == thresholds && this.inSubnet == inSubnet && fresh(rates)
      ensures Valid() && NamesAgree() && loaded == thresholds.items
    {
      this.thresholds, this.inSubnet := thresholds, inSubnet;
      loaded, masks, ids, home := map[], map[], map[], map[];
      rates := new RateTables();
      new;
      CreateInitialMasks();
    }

    lemma NothingIndexed()
      ensures IsIndex(map[], map[], map[], map[])
    {
    }

    method CreateInitialMasks()
      requires AllWellFormed(thresholds.items)
      modifies this
      ensures loaded == thresholds.items && IsIndex(loaded, masks, ids, home) && NamesAgree()
    {
      hide IsIndex, NameSetIs, NamesIn;
      loaded := thresholds.items;
      masks, ids, home := map[], map[], map[];
      NothingIndexed();
      ghost var added: map<string, Threshold> := map[];
      var todo := thresholds.items.Keys;
      while todo != {}
        invariant todo <= loaded.Keys && added == loaded - todo
        invariant IsIndex(added, masks, ids, home)
        invariant forall id | id in added :: id in home && NameSetIs(added[id].entries, NamesIn(home[id]))
        modifies this`masks, this`ids, this`home
      {
        var id :| id in todo;
        AddMask(loaded[id], id, added);
        VisitedGrows(loaded, todo, id);
        added := added[id := loaded[id]];
        todo := todo - {id};
      }
      assert added == loaded;
    }

    method AddMask(state: Threshold, ghost id: string, ghost added: map<string, Threshold>)
      requires WellFormed(state.entries)
      requires id !in added && IsIndex(added, masks, ids, home)
      modifies this`masks, this`ids, this`home
      ensures IsIndex(added[id := state], masks, ids, home)
      ensures id in home && NameSetIs(state.entries, NamesIn(home[id]))
      ensures forall k | k in added :: k in home && home[k] == old(home)[k]
    {
      var keys := MaskOf(state.entries);
      MaskHasNames(state.entries);
      AddKeepsIndex(added, masks, ids, home, id, state, keys);
      masks := masks[keys := (if keys in masks then masks[keys] else []) + [state]];
      ids := ids[keys := (if keys in ids then ids[keys] else []) + [id]];
      home := home[id := keys];
    }

    /** What the look-up through the home mask says about one loaded threshold. */
    ghost predicate Selects(id: string, message: Message)
      requires id in loaded && id in home && WellFormed(loaded[id].entries)
      reads this, loaded.Values
    {
      && ThroughMask(NamesIn(home[id]), loaded[id].entries["fields"].fields, message, inSubnet) == Pass
      && TestSubtype(loaded[id].entries, message)
    }

    /** The look-up through the home mask comes to a field that cannot be tested. */
    ghost predicate RaisesFor(id: string, message: Message)
      requires id in loaded && id in home && WellFormed(loaded[id].entries)
      reads this, loaded.Values
    {
      ThroughMask(NamesIn(home[id]), loaded[id].entries["fields"].fields, message, inSubnet) == KeyError
    }

    /** The thresholds found, each with its id, each once. */
    ghost predicate Found(matches: seq<Threshold>, found: seq<string>)
      reads this
    {
      && |matches| == |found|
      && (forall i | 0 <= i < |found| :: found[i] in loaded && matches[i] == loaded[found[i]])
      && (forall i, j | 0 <= i < j < |found| :: found[i] != found[j])
    }

    lemma FoundTogether(matches: seq<Threshold>, found: seq<string>, part: seq<Threshold>, partIds: seq<string>)
      requires Found(matches, found) && Found(part, partIds) && forall id | id in partIds :: id !in found
      ensures Found(matches + part, found + partIds)
    {
      forall i, j | 0 <= i < |found| && 0 <= j < |partIds|
        ensures found[i] != partIds[j]
      {
        assert partIds[j] in partIds && found[i] in found;
      }
    }

    /** The first `n` thresholds under a mask have been tested. */
    ghost predicate FoundUpTo(mask: Mask, n: nat, message: Message, matches: seq<Threshold>, found: seq<string>)
      requires IsIndex(loaded, masks, ids, home) && AllWellFormed(loaded) && mask in masks && n <= |ids[mask]|
      reads this, loaded.Values
    {
      assert Lists(loaded, masks[mask], ids[mask], home, mask);
      && Found(matches, found)
      && (forall id :: id in found <==> id in ids[mask][..n] && Selects(id, message))
      && (forall id | id in ids[mask][..n] :: !RaisesFor(id, message))
    }

    lemma TestedUnderMask(id: string, mask: Mask, message: Message, test: Test)
      requires id in loaded && id in home && home[id] == mask && WellFormed(loaded[id].entries)
      requires NamesIn(mask) <= message.Keys
      requires test == Outcome(loaded[id].entries["fields"].fields, message, inSubnet)
      ensures RaisesFor(id, message) <==> test == KeyError
      ensures Selects(id, message) <==> test == Pass && TestSubtype(loaded[id].entries, message)
    {
      hide Outcome, TestSubtype;
    }

    lemma TestedOneMore(mask: Mask, i: nat, message: Message, matches: seq<Threshold>, found: seq<string>, test: Test)
      requires IsIndex(loaded, masks, ids, home) && AllWellFormed(loaded) && mask in masks && i < |ids[mask]|
      requires NamesIn(mask) <= message.Keys && FoundUpTo(mask, i, message, matches, found)
      requires ids[mask][i] in loaded
      requires test == Outcome(loaded[ids[mask][i]].entries["fields"].fields, message, inSubnet)
      ensures test == KeyError <==> RaisesFor(ids[mask][i], message)
      ensures test != KeyError ==>
                var id := ids[mask][i];
                if test == Pass && TestSubtype(loaded[id].entries, message)
                then FoundUpTo(mask, i + 1, message, matches + [loaded[id]], found + [id])
                else FoundUpTo(mask, i + 1, message, matches, found)
    {
      assert Lists(loaded, masks[mask], ids[mask], home, mask);
      var id := ids[mask][i];
      TestedUnderMask(id, mask, message, test);
      hide Outcome, TestSubtype, WellFormed, IPFIX.Selects, IPFIX.RaisesFor, Lists, NamesIn;
      assert ids[mask][..i + 1] == ids[mask][..i] + [id];
      if test != KeyError {
        NewIsNotFound(mask, i, message, matches, found);
      }
    }

    lemma NewIsNotFound(mask: Mask, i: nat, message: Message, matches: seq<Threshold>, found: seq<string>)
      requires IsIndex(loaded, masks, ids, home) && AllWellFormed(loaded) && mask in masks && i < |ids[mask]|
      requires FoundUpTo(mask, i, message, matches, found)
      ensures ids[mask][i] !in found
      ensures Found(matches + [loaded[ids[mask][i]]], found + [ids[mask][i]])
    {
      assert Lists(loaded, masks[mask], ids[mask], home, mask);
      assert ids[mask][i] !in ids[mask][..i];
    }

    /** Tests the thresholds under one mask in turn. */
    method MatchesUnder(mask: Mask, message: Message)
      returns (raised: bool, matches: seq<Threshold>, ghost found: seq<string>)
      requires IsIndex(loaded, masks, ids, home) && AllWellFormed(loaded) && mask in masks
      requires NamesIn(mask) <= message.Keys
      ensures !raised ==> Found(matches, found)
      ensures !raised ==> forall id :: id in found <==> id in ids[mask] && Selects(id, message)
      ensures raised <==> exists id :: id in ids[mask] && RaisesFor(id, message)
    {
      hide IPFIX.Found, IPFIX.Selects, IPFIX.RaisesFor, Outcome, TestSubtype;
      matches, found := [], [];
      assert Lists(loaded, masks[mask], ids[mask], home, mask);
      NothingTested(mask, message);
      for i := 0 to |masks[mask]|
        invariant FoundUpTo(mask, i, message, matches, found)
      {
        var state := masks[mask][i];
        ghost var id := ids[mask][i];
        var test := TestMatchSimilarity(state.entries["fields"].fields, message, inSubnet);
        TestedOneMore(mask, i, message, matches, found, test);
        if test == KeyError {
          return true, [], [];
        }
        if test == Pass && TestSubtype(state.entries, message) {
          matches, found := matches + [state], found + [id];
        }
      }
      assert ids[mask][..|masks[mask]|] == ids[mask];
      return false, matches, found;
    }

    lemma NothingTested(mask: Mask, message: Message)
      requires IsIndex(loaded, masks, ids, home) && AllWellFormed(loaded) && mask in masks
      ensures FoundUpTo(mask, 0, message, [], [])
    {
    }

    /** The matches found and the masks still to be looked at, in the middle of the look-up. */
    ghost predicate FoundExcept(todo: set<Mask>, message: Message, matches: seq<Threshold>, found: seq<string>)
      requires IsIndex(loaded, masks, ids, home) && AllWellFormed(loaded)
      reads this, loaded.Values
    {
      && Found(matches, found)
      && (forall id :: id in found <==> id in loaded && home[id] !in todo && Selects(id, message))
      && (forall id | id in loaded && home[id] !in todo :: !RaisesFor(id, message))
    }

    lemma MaskSkipped(todo: set<Mask>, mask: Mask, message: Message, matches: seq<Threshold>, found: seq<string>)
      requires IsIndex(loaded, masks, ids, home) && AllWellFormed(loaded)
      requires FoundExcept(todo, message, matches, found) && !(NamesIn(mask) <= message.Keys)
      ensures FoundExcept(todo - {mask}, message, matches, found)
    {
    }

    lemma MaskLookedAt(todo: set<Mask>, mask: Mask, message: Message, matches: seq<Threshold>, found: seq<string>,
                       part: seq<Threshold>, partIds: seq<string>)
      requires IsIndex(loaded, masks, ids, home) && AllWellFormed(loaded)
      requires FoundExcept(todo, message, matches, found) && mask in todo && mask in masks
      requires Found(part, partIds) && forall id :: id in partIds <==> id in ids[mask] && Selects(id, message)
      requires !exists id :: id in ids[mask] && RaisesFor(id, message)
      ensures FoundExcept(todo - {mask}, message, matches + part, found + partIds)
    {
      assert Lists(loaded, masks[mask], ids[mask], home, mask);
      assert forall id | id in partIds :: id !in found;
      assert forall id | id in loaded && home[id] == mask :: id in ids[mask];
      FoundTogether(matches, found, part, partIds);
      forall id ensures id in found + partIds <==> id in loaded && home[id] !in todo - {mask} && Selects(id, message) {
        assert id in found + partIds <==> id in found || id in partIds;
      }
    }

    /** Raises exactly if some threshold, under a mask that the message has, cannot be tested. */
    method FindMaskMatch(message: Message)
      returns (raised: bool, matches: seq<Threshold>, ghost found: seq<string>)
      requires IsIndex(loaded, masks, ids, home) && AllWellFormed(loaded)
      ensures raised <==> exists id :: id in loaded && RaisesFor(id, message)
      ensures !raised ==> Found(matches, found)
      ensures !raised ==> forall id :: id in found <==> id in loaded && Selects(id, message)
    {
      hide IPFIX.Selects, IPFIX.RaisesFor, IPFIX.Found;
      raised, matches, found := false, [], [];
      var todo := masks.Keys;
      NothingLookedAt(message);
      while todo != {}
        invariant todo <= masks.Keys && !raised
        invariant FoundExcept(todo, message, matches, found)
      {
        var mask :| mask in todo;
        if NamesIn(mask) <= message.Keys {
          var part: seq<Threshold>;
          ghost var partIds: seq<string>;
          raised, part, partIds := MatchesUnder(mask, message);
          if raised {
            IndexedIsLoaded(mask);
            return true, [], [];
          }
          MaskLookedAt(todo, mask, message, matches, found, part, partIds);
          matches, found := matches + part, found + partIds;
        } else {
          MaskSkipped(todo, mask, message, matches, found);
        }
        todo := todo - {mask};
      }
    }

    lemma NothingLookedAt(message: Message)
      requires IsIndex(loaded, masks, ids, home) && AllWellFormed(loaded)
      ensures FoundExcept(masks.Keys, message, [], [])
    {
    }

    lemma IndexedIsLoaded(mask: Mask)
      requires IsIndex(loaded, masks, ids, home) && mask in masks
      ensures forall id | id in ids[mask] :: id in loaded
    {
      assert Lists(loaded, masks[mask], ids[mask], home, mask);
    }

    /**
     * The matches are, one for one, the live thresholds that fire: what a direct scan of the
     * shared dictionary finds, although the objects may be older ones with equal contents.
     */
    ghost predicate ExactlyFires(matches: seq<Threshold>, found: seq<string>, message: Message)
      requires AllWellFormed(thresholds.items)
      reads this, thresholds, thresholds.items.Values, matches
    {
      && |matches| == |found|
      && (forall i, j | 0 <= i < j < |found| :: found[i] != found[j])
      && (forall id :: id in found <==>
            id in thresholds.items && Fires(thresholds.items[id].entries, message, inSubnet))
      && (forall i | 0 <= i < |found| && found[i] in thresholds.items ::
            SameEntries(matches[i].entries, thresholds.items[found[i]].entries))
    }

    lemma LookUpIsExact(matches: seq<Threshold>, found: seq<string>, message: Message)
      requires Valid() && NamesAgree() && LooksCurrent() && Complete(message)
      requires Found(matches, found)
      requires forall id :: id in found <==> id in loaded && Selects(id, message)
      ensures ExactlyFires(matches, found, message)
    {
      forall id | id in loaded
        ensures Selects(id, message) == Fires(thresholds.items[id].entries, message, inSubnet)
      {
        var fields := loaded[id].entries["fields"].fields;
        SameEntriesFireAlike(loaded[id].entries, thresholds.items[id].entries, message, inSubnet);
        OutcomeIsMatch(fields, message, inSubnet);
        MaskIsAsGoodAsNames(id, message);
        assert Matches(fields, message, inSubnet) ==> Names(fields) <= message.Keys;
      }
    }

    lemma MaskIsAsGoodAsNames(id: string, message: Message)
      requires NamesAgree() && id in loaded && Complete(message)
      ensures NamesIn(home[id]) <= message.Keys <==> Names(loaded[id].entries["fields"].fields) <= message.Keys
    {
      var mask, names := NamesIn(home[id]), Names(loaded[id].entries["fields"].fields);
      assert NameSetIs(loaded[id].entries, mask) && FLOW_KEYS <= message.Keys;
      assert mask <= mask - FLOW_KEYS + FLOW_KEYS && names <= names - FLOW_KEYS + FLOW_KEYS;
    }

    /** The picked match has the largest priority of all live thresholds that fire. */
    ghost predicate HighestOfLive(found: seq<string>, at: nat, message: Message)
      requires AllWellFormed(thresholds.items)
      reads this, thresholds, thresholds.items.Values
    {
      && at < |found| && found[at] in thresholds.items
      && forall id | id in thresholds.items && Fires(thresholds.items[id].entries, message, inSubnet) ::
           Priority(thresholds.items[id].entries) <= Priority(thresholds.items[found[at]].entries)
    }

    lemma HighestIsOfLive(matches: seq<Threshold>, found: seq<string>, at: nat, message: Message)
      requires AllWellFormed(thresholds.items) && ExactlyFires(matches, found, message)
      requires at < |matches| && (forall t | t in matches :: WellFormed(t.entries)) && Highest(matches, at)
      ensures HighestOfLive(found, at, message)
    {
      hide Fires;
      assert found[at] in found;
      SameEntriesFireAlike(matches[at].entries, thresholds.items[found[at]].entries, message, inSubnet);
      forall id | id in thresholds.items && Fires(thresholds.items[id].entries, message, inSubnet)
        ensures Priority(thresholds.items[id].entries) <= Priority(thresholds.items[found[at]].entries)
      {
        assert id in found;
        var j :| 0 <= j < |found| && found[j] == id;
        SameEntriesFireAlike(matches[j].entries, thresholds.items[id].entries, message, inSubnet);
      }
    }

    /** The first of the matches that no other one exceeds in priority. */
    method FindHighestPriorityMatch(matches: seq<Threshold>) returns (highest: Threshold, ghost at: nat)
      requires matches != [] && forall t | t in matches :: WellFormed(t.entries)
      ensures at < |matches| && highest == matches[at]
      ensures forall j | 0 <= j < |matches| :: Priority(matches[j].entries) <= Priority(highest.entries)
      ensures forall j | 0 <= j < at :: Priority(matches[j].entries) < Priority(highest.entries)
    {
      highest, at := matches[0], 0;
      for i := 0 to |matches|
        invariant at <= i && at < |matches| && highest == matches[at]
        invariant forall j | 0 <= j < i :: Priority(matches[j].entries) <= Priority(highest.entries)
        invariant forall j | 0 <= j < at :: Priority(matches[j].entries) < Priority(highest.entries)
      {
        if Priority(matches[i].entries) > Priority(highest.entries) {
          highest, at := matches[i], i;
        }
      }
    }

    /** The reload at the start of every message. */
    method ReloadIfChanged()
      requires Valid()
      modifies this
      ensures Valid() && LooksCurrent()
      ensures old(NamesAgree() || !LooksCurrent()) ==> NamesAgree()
      ensures old(LooksCurrent()) ==> loaded == old(loaded) && home == old(home)
    {
      if !LooksCurrent() {
        CreateInitialMasks();
        forall k | k in loaded {
          SameEntriesReflexive(loaded[k].entries);
        }
      }
    }

    /** What is done about the matches, given the statistics of the flow. */
    method React(matches: seq<Threshold>, stats: FlowStats, message: Message)
      returns (reaction: Reaction, ghost at: nat)
      requires forall t | t in matches :: WellFormed(t.entries)
      ensures !reaction.Unrecognised? && !reaction.KeyErrorRaised?
      ensures Suits(reaction, matches, at, stats, message)
      ensures matches != [] ==>
                && Judges(reaction.Treated?, reaction.TypeErrorRaised?, matches[at].entries, stats)
                && Takes(reaction, matches[at], message)
    {
      if matches == [] {
        return NoThresholdFound, 0;
      }
      var highest;
      highest, at := FindHighestPriorityMatch(matches);
      CheckJudges(stats, highest.entries);
      match CheckThreshold(stats, highest.entries)
      case TypeError => reaction := TypeErrorRaised;
      case NotExceeded => reaction := NotTriggered(highest);
      case Exceeded => reaction := Treated(highest, TreatmentFieldsOf(highest.entries, message));
    }

    /**
     * Exactly: the reaction suits the thresholds that their masks select, and a KeyError is due to
     * a counter that is missing or to one of them that cannot be tested.
     */
    ghost predicate Reacts(reaction: Reaction, matches: seq<Threshold>, found: seq<string>, at: nat,
                           stats: FlowStats, message: Message)
      requires IsIndex(loaded, masks, ids, home) && AllWellFormed(loaded)
      reads this, loaded.Values, matches
    {
      && (reaction.Unrecognised? <==> !Recognised(message))
      && (Recognised(message) ==>
            (reaction.KeyErrorRaised? <==> !Complete(message) || exists id :: id in loaded && RaisesFor(id, message)))
      && (Complete(message) && !reaction.KeyErrorRaised? ==>
            && Found(matches, found) && (forall id :: id in found <==> id in loaded && Selects(id, message))
            && (forall t | t in matches :: WellFormed(t.entries))
            && Suits(reaction, matches, at, stats, message))
    }

    /**
     * When every mask agrees with its thresholds, these are exactly the live ones that fire, the
     * one reacted to has the largest priority of them, and a KeyError is due to the message alone.
     */
    ghost predicate Answers(reaction: Reaction, matches: seq<Threshold>, found: seq<string>, at: nat, message: Message)
      requires AllWellFormed(thresholds.items)
      reads this, thresholds, thresholds.items.Values, loaded.Values, matches
    {
      NamesAgree() && Complete(message) ==>
        if reaction.KeyErrorRaised? then UnknownProtocol(message)
        else
          && ExactlyFires(matches, found, message)
          && (matches != [] ==> HighestOfLive(found, at, message))
    }

    lemma ReactsAnswers(reaction: Reaction, matches: seq<Threshold>, found: seq<string>, at: nat,
                        stats: FlowStats, message: Message)
      requires Valid() && LooksCurrent() && Reacts(reaction, matches, found, at, stats, message)
      ensures Answers(reaction, matches, found, at, message)
    {
      hide TreatmentFieldsOf, CheckThreshold, Fires, SameEntries, NameSetIs, Names, IPFIX.ExactlyFires,
          IPFIX.HighestOfLive,
           Highest, IsIndex, FLOW_KEYS;
      if NamesAgree() && Complete(message) {
        if reaction.KeyErrorRaised? {
          var id :| id in loaded && RaisesFor(id, message);
          MaskIsAsGoodAsNames(id, message);
          KeyErrorMeansUnknownProtocol(loaded[id].entries["fields"].fields, message, inSubnet);
        } else {
          LookUpIsExact(matches, found, message);
          if matches != [] {
            HighestIsOfLive(matches, found, at, message);
          }
        }
      }
    }

    method LookUpAndReact(message: Message, stats: FlowStats)
      returns (reaction: Reaction, ghost matches: seq<Threshold>, ghost found: seq<string>, ghost at: nat)
      requires IsIndex(loaded, masks, ids, home) && AllWellFormed(loaded) && Complete(message)
      ensures Reacts(reaction, matches, found, at, stats, message)
    {
      hide TreatmentFieldsOf, CheckThreshold, IPFIX.Selects, IPFIX.RaisesFor, FLOW_KEYS;
      var raised: bool;
      var states: seq<Threshold>;
      raised, states, found := FindMaskMatch(message);
      matches := states;
      if raised {
        return KeyErrorRaised, matches, found, 0;
      }
      reaction, at := React(states, stats, message);
    }

    /**
     * Handles one message. `matches` are the thresholds found and `found` their ids. When it is
     * known that no stale mask is in the way, they are exactly the live thresholds that fire.
     */
    method Handle(message: Message, now: int)
      returns (reaction: Reaction, stats: FlowStats,
               ghost matches: seq<Threshold>, ghost found: seq<string>, ghost at: nat)
      requires Valid() && CountsAreNumbers(message)
      modifies this, rates
      ensures Valid() && LooksCurrent()
      ensures old(NamesAgree() || !LooksCurrent()) ==> NamesAgree()
      ensures old(LooksCurrent()) ==> loaded == old(loaded) && home == old(home)
      ensures Counted(old(rates.history), rates.history, message, now, stats)
      ensures Reacts(reaction, matches, found, at, stats, message)
      ensures Answers(reaction, matches, found, at, message)
      ensures Complete(message) ==> Decides(reaction, matches, at, old(rates.history), message, now)
    {
      hide Decides;
      hide IPFIX.Reacts, IPFIX.Answers, IPFIX.LooksCurrent, IPFIX.NamesAgree, Counted, IsIndex, AllWellFormed, Refines;
      ReloadIfChanged();
      reaction, stats, matches, found, at := HandleLoaded(message, now);
      ReactsAnswers(reaction, matches, found, at, stats, message);
    }

    /** The rest of `Handle`, with the index as it is. */
    method HandleLoaded(message: Message, now: int)
      returns (reaction: Reaction, stats: FlowStats,
               ghost matches: seq<Threshold>, ghost found: seq<string>, ghost at: nat)
      requires rates.Valid() && IsIndex(loaded, masks, ids, home) && AllWellFormed(loaded) && CountsAreNumbers(message)
      modifies rates
      ensures rates.Valid() && Counted(old(rates.history), rates.history, message, now, stats)
      ensures Reacts(reaction, matches, found, at, stats, message)
      ensures Complete(message) ==> Decides(reaction, matches, at, old(rates.history), message, now)
    {
      hide IsIndex, Reports, FLOW_KEYS, Refines, Decides, Suits;
      stats := FlowStats(0.0, 0.0, None, None, None, None, None, None, None);
      matches, found, at := [], [], 0;
      if !Recognised(message) {
        return Unrecognised, stats, matches, found, at;
      }
      if !Complete(message) {
        return KeyErrorRaised, stats, matches, found, at;
      }
      stats := rates.Record(ArrivalOf(message, now));
      reaction, matches, found, at := LookUpAndReact(message, stats);
      SuitsDecides(reaction, matches, at, stats, old(rates.history), message, now);
    }
  }

  function Priority(e: Entries): real
    requires WellFormed(e)
  {
    e["priority"].v.n
  }

  lemma PriorityIsEntry(e: Entries)
    requires WellFormed(e)
    ensures e["priority"] == Plain(Num(Priority(e)))
  {
  }

  /** The reaction takes up a match of highest priority, and treats it if its threshold is exceeded. */
  ghost predicate Suits(reaction: Reaction, matches: seq<Threshold>, at: nat, stats: FlowStats, message: Message)
    reads matches
    requires forall t | t in matches :: WellFormed(t.entries)
  {
    if matches == [] then reaction == NoThresholdFound
    else
      && at < |matches| && Highest(matches, at)
      && match CheckThreshold(stats, matches[at].entries)
         case TypeError => reaction == TypeErrorRaised
         case NotExceeded => reaction == NotTriggered(matches[at])
         case Exceeded => reaction == Treated(matches[at], TreatmentFieldsOf(matches[at].entries, message))
  }

  /** Nothing but this threshold is treated, with its own fields if it has any, else with the whole message. */
  ghost predicate Takes(reaction: Reaction, taken: Threshold, message: Message)
    reads taken
  {
    && (reaction.Treated? || reaction.TypeErrorRaised? || reaction == NotTriggered(taken))
    && (reaction.Treated? && "treatment_fields" in taken.entries ==>
          reaction == Treated(taken, OwnFields(taken.entries["treatment_fields"])))
    && (reaction.Treated? && "treatment_fields" !in taken.entries ==>
          reaction == Treated(taken, WholeMessage(message)))
  }

  /**
   * What becomes of a complete message for which thresholds are found, in terms of the messages
   * before it: the one of highest priority is judged by its metric.
   */
  ghost predicate Decides(reaction: Reaction, matches: seq<Threshold>, at: nat, history: seq<Arrival>,
                          message: Message, now: int)
    requires CountsAreNumbers(message) && Complete(message)
    reads matches
  {
    matches != [] && !reaction.KeyErrorRaised? ==>
      && at < |matches| && (forall t | t in matches :: WellFormed(t.entries)) && Highest(matches, at)
      && Takes(reaction, matches[at], message)
      && Judged(reaction.Treated?, reaction.TypeErrorRaised?, matches[at].entries, history, ArrivalOf(message, now))
  }

  /** Two messages are of one flow if they agree on both addresses and both ports, and on nothing else. */
  lemma SameFlowIff(a: Message, b: Message, now: int)
    requires Complete(a) && Complete(b) && CountsAreNumbers(a) && CountsAreNumbers(b)
    ensures ArrivalOf(a, now).flow == ArrivalOf(b, now).flow <==>
              forall key | key in FLOW_KEYS - {"octetDeltaCount", "packetDeltaCount"} :: a[key] == b[key]
    ensures ArrivalOf(a, now).octets == ArrivalOf(b, now).octets <==> a["octetDeltaCount"] == b["octetDeltaCount"]
    ensures ArrivalOf(a, now).packets == ArrivalOf(b, now).packets <==> a["packetDeltaCount"] == b["packetDeltaCount"]
  {
    assert forall key | key in FLOW_KEYS :: key in a && key in b;
  }

  lemma SuitsDecides(reaction: Reaction, matches: seq<Threshold>, at: nat, stats: FlowStats, history: seq<Arrival>,
                     message: Message, now: int)
    requires CountsAreNumbers(message) && Complete(message)
    requires !reaction.KeyErrorRaised? ==>
               (forall t | t in matches :: WellFormed(t.entries)) && Suits(reaction, matches, at, stats, message)
    requires Reports(stats, history, ArrivalOf(message, now))
    ensures Decides(reaction, matches, at, history, message, now)
  {
    hide Reports, Judged, Judges, CheckThreshold, Highest, WellFormed, ArrivalOf;
    if matches != [] && !reaction.KeyErrorRaised? {
      var e := matches[at].entries;
      CheckJudges(stats, e);
      ReportsJudge(reaction.Treated?, reaction.TypeErrorRaised?, e, stats, history, ArrivalOf(message, now));
    }
  }

  function TreatmentFieldsOf(e: Entries, message: Message): TreatmentFields {
    if "treatment_fields" in e then OwnFields(e["treatment_fields"]) else WholeMessage(message)
  }

  ghost predicate Highest(matches: seq<Threshold>, at: nat)
    reads matches
    requires at < |matches| && forall t | t in matches :: WellFormed(t.entries)
  {
    && (forall j | 0 <= j < |matches| :: Priority(matches[j].entries) <= Priority(matches[at].entries))
    && (forall j | 0 <= j < at :: Priority(matches[j].entries) < Priority(matches[at].entries))
  }

  /** The keys of a message that is looked up: those of its flow and its counters. */
  const FLOW_KEYS := {"sourceIPv4Address", "destinationIPv4Address", "sourceTransportPort", "destinationTransportPort",
                      "octetDeltaCount", "packetDeltaCount"}

  /** The message names an IPv4 flow. */
  predicate Recognised(message: Message) {
    && "sourceIPv4Address" in message && "destinationIPv4Address" in message
    && "sourceTransportPort" in message && "destinationTransportPort" in message
  }

  /** The message names a flow and carries its counters. */
  predicate Complete(message: Message) {
    Recognised(message) && "octetDeltaCount" in message && "packetDeltaCount" in message
  }

  /** Which keys a message needs to be looked at, and to be looked up. */
  lemma NeededKeys(message: Message)
    ensures Recognised(message) <==>
              {"sourceIPv4Address", "destinationIPv4Address", "sourceTransportPort", "destinationTransportPort"}
              <= message.Keys
    ensures Complete(message) <==> Recognised(message) && {"octetDeltaCount", "packetDeltaCount"} <= message.Keys
    ensures Complete(message) <==> FLOW_KEYS <= message.Keys
  {
  }

  predicate CountsAreNumbers(message: Message) {
    && ("octetDeltaCount" in message ==> message["octetDeltaCount"].Num?)
    && ("packetDeltaCount" in message ==> message["packetDeltaCount"].Num?)
  }

  function ArrivalOf(message: Message, now: int): Arrival
    requires Complete(message) && CountsAreNumbers(message)
  {
    Arrival(Flow(message["sourceIPv4Address"], message["destinationIPv4Address"],
                 message["sourceTransportPort"], message["destinationTransportPort"]),
            message["octetDeltaCount"].n, message["packetDeltaCount"].n, now)
  }

  /** A complete message joins the history of the rates, and is reported on. */
  ghost predicate Counted(before: seq<Arrival>, after: seq<Arrival>, message: Message, now: int, stats: FlowStats)
    requires CountsAreNumbers(message)
  {
    if Complete(message) then
      && after == before + [ArrivalOf(message, now)]
      && Reports(stats, before, ArrivalOf(message, now))
    else after == before
  }

  ghost predicate NameSetIs(e: Entries, names: set<string>) {
    "fields" in e && e["fields"].Dict? && Names(e["fields"].fields) - FLOW_KEYS == names - FLOW_KEYS
  }

  predicate UnknownProtocol(message: Message) {
    "protocolIdentifier" in message && message["protocolIdentifier"] !in PROTOCOL_IDENTIFIERS
  }

  lemma KeyErrorMeansUnknownProtocol(fields: seq<Field>, message: Message, inSubnet: SubnetTest)
    requires Typed(fields) && Outcome(fields, message, inSubnet) == KeyError
    requires Names(fields) <= message.Keys
    ensures UnknownProtocol(message)
  {
    if fields != [] && TestField(fields[0], message, inSubnet) == Pass {
      assert forall f | f in fields[1..] :: f in fields;
      KeyErrorMeansUnknownProtocol(fields[1..], message, inSubnet);
    } else {
      assert fields[0].name in Names(fields);
    }
  }

  lemma {:induction false} DistinctOccurOnce(ids: seq<string>, id: string)
    requires forall i, j | 0 <= i < j < |ids| :: ids[i] != ids[j]
    ensures multiset(ids)[id] == if id in ids then 1 else 0
  {
    if ids != [] {
      assert ids == [ids[0]] + ids[1..];
      DistinctOccurOnce(ids[1..], id);
    }
  }

  /** In whatever order the dictionary is scanned, the same thresholds are found, as multisets. */
  lemma SameMultisetAsScan(found: seq<string>, scan: seq<string>)
    requires forall i, j | 0 <= i < j < |found| :: found[i] != found[j]
    requires forall i, j | 0 <= i < j < |scan| :: scan[i] != scan[j]
    requires forall id :: id in found <==> id in scan
    ensures multiset(found) == multiset(scan)
  {
    forall id
      ensures multiset(found)[id] == multiset(scan)[id]
    {
      DistinctOccurOnce(found, id);
      DistinctOccurOnce(scan, id);
    }
  }
}
