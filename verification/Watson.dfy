/** The northbound interface: requests that add, update and remove thresholds. */
module Watson {
  import opened PythonValues
  import opened IpfixHandler
  import opened ThresholdFile

  const OK := 200
  const BAD_REQUEST := 400
  const NOT_FOUND := 404

  const IPFIX_KEYS := {"fields", "subtype", "treatment", "priority"}
  const SNORT_KEYS := {"rule", "treatment", "priority"}

  datatype SavedFile = SavedFile(ipfix: seq<Entries>, snort: seq<Entries>)

  class WatsonNBI {
    const ipfixThresholds: ThresholdDict
    const snortThresholds: ThresholdDict

    var file: SavedFile  // thresholds.yaml

    constructor (ipfix: ThresholdDict, snort: ThresholdDict, file: SavedFile)
      ensures ipfixThresholds == ipfix && snortThresholds == snort && this.file == file
    {
      ipfixThresholds, snortThresholds, this.file := ipfix, snort, file;
    }

    /** A restart would load the thresholds that are live now. */
    ghost predicate FileIsCurrent()
      reads this, ipfixThresholds, ipfixThresholds.items.Values, snortThresholds, snortThresholds.items.Values
    {
      && IsSaved(file.ipfix, ipfixThresholds.Contents())
      && IsSaved(file.snort, snortThresholds.Contents())
    }

    method ThresholdToFile()
      modifies this`file
      ensures FileIsCurrent()
    {
      var ipfix := ThresholdsToFile(ipfixThresholds.Contents());
      var snort := ThresholdsToFile(snortThresholds.Contents());
      file := SavedFile(ipfix, snort);
    }

    /** The entries that a new threshold of either kind must have. */
    function RequiredKeys(thresholds: ThresholdDict): set<string> {
      if thresholds == ipfixThresholds then IPFIX_KEYS else SNORT_KEYS
    }

    /** An existing id is refused first, then a request without JSON, then one with a key missing. */
    method Add(thresholds: ThresholdDict, id: string, json: bool, req: Entries)
      returns (status: int)
      requires thresholds == ipfixThresholds || thresholds == snortThresholds
      modifies thresholds, this`file
      ensures var required := if thresholds == ipfixThresholds then {"fields", "subtype", "treatment", "priority"}
                              else {"rule", "treatment", "priority"};
              status == if id !in old(thresholds.items) && json && required <= req.Keys then 200
                        else 400
      ensures status != 200 ==> thresholds.items == old(thresholds.items) && file == old(file)
      ensures status == 200 ==>
                && id in thresholds.items && fresh(thresholds.items[id]) && thresholds.items[id].entries == req
                && thresholds.items == old(thresholds.items)[id := thresholds.items[id]]
                && FileIsCurrent()
    {
      if id in thresholds.items {
        return BAD_REQUEST;
      }
      if json {
        if !(RequiredKeys(thresholds) <= req.Keys) {
          return BAD_REQUEST;
        }
        var threshold := new Threshold(req);
        thresholds.items := thresholds.items[id := threshold];
        ThresholdToFile();
        return OK;
      } else {
        return BAD_REQUEST;
      }
    }

    /** Overwrites entries of the stored object itself; the dictionary keeps the same object. */
    method Update(thresholds: ThresholdDict, id: string, json: bool, req: Entries) returns (status: int)
      requires thresholds == ipfixThresholds || thresholds == snortThresholds
      modifies if id in thresholds.items then {thresholds.items[id]} else {}, this`file
      ensures status == if id !in thresholds.items then 404 else if json then 200 else 400
      ensures status != 200 ==> file == old(file)
      ensures id in thresholds.items ==>
                thresholds.items[id].entries == if json then old(thresholds.items[id].entries) + req
                                                else old(thresholds.items[id].entries)
      ensures status == 200 ==> FileIsCurrent()
    {
      if id !in thresholds.items {
        return NOT_FOUND;
      }
      if json {
        var threshold := thresholds.items[id];
        var todo := req.Keys;
        while todo != {}
          invariant todo <= req.Keys
          invariant threshold.entries == old(threshold.entries) + (req - todo)
          modifies threshold
        {
          var key :| key in todo;
          VisitedGrows(req, todo, key);
          threshold.entries := threshold.entries[key := req[key]];
          todo := todo - {key};
        }
        assert req - {} == req;
        ThresholdToFile();
        return OK;
      } else {
        return BAD_REQUEST;
      }
    }

    method RemoveIpfix(id: string) returns (status: int)
      modifies ipfixThresholds, this`file
      ensures status == if id in old(ipfixThresholds.items) then 200 else 404
      ensures ipfixThresholds.items == old(ipfixThresholds.items) - {id}
      ensures status != 200 ==> file == old(file)
      ensures status == 200 ==> FileIsCurrent()
    {
      if id !in ipfixThresholds.items {
        assert ipfixThresholds.items - {id} == ipfixThresholds.items;
        return NOT_FOUND;
      }
      ipfixThresholds.items := ipfixThresholds.items - {id};
      ThresholdToFile();
      return OK;
    }

    /**
     * Unlike every other change, this one does not write the file. If the file was current, a
     * restart brings the removed threshold back.
     */
    method RemoveSnort(id: string) returns (status: int)
      modifies snortThresholds
      ensures status == if id in old(snortThresholds.items) then 200 else 404
      ensures snortThresholds.items == old(snortThresholds.items) - {id}
      ensures file == old(file)
      ensures old(FileIsCurrent()) && status == 200 ==>
                && StringIds(file.snort)
                && id in Extract(file.snort, "default_snort_")
                && Extract(file.snort, "default_snort_")[id] == WithoutId(old(snortThresholds.Contents())[id])
    {
      if id !in snortThresholds.items {
        assert snortThresholds.items - {id} == snortThresholds.items;
        return NOT_FOUND;
      }
      ghost var contents := snortThresholds.Contents();
      if FileIsCurrent() {
        LoadAfterSave(file.snort, contents, "default_snort_");
      }
      snortThresholds.items := snortThresholds.items - {id};
      return OK;
    }
  }
}
