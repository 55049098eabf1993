/** The CRUD handlers of `/api/bugs` over an abstract document store. */
module BugRoutes {
  import opened Js
  import opened Text
  import opened Validation

  /** Store-assigned identifier of a bug document. */
  type BugId = nat

  /** A stored bug document. */
  datatype Bug = Bug(
    id: BugId,
    title: string,
    description: string,
    reportedBy: string,
    status: string,
    priority: string,
    assignedTo: string,
    createdAt: nat)

  /** The `status` and `priority` query parameters of the list route. */
  datatype Query = Query(status: Option<string>, priority: Option<string>)

  /** The JSON body of a response, after its `success` flag. */
  datatype Payload =
    | Data(data: Bug)
    | DataList(count: nat, bugs: seq<Bug>)
    | Error(error: string)
    | ErrorDetails(error: string, details: seq<string>)
    | Message(message: string)

  datatype Response = Response(status: int, success: bool, payload: Payload)

  const NotFound := Response(404, false, Error("Bug not found"))

  /** The fields an update request may change; every other key is dropped. */
  const AllowedUpdates: set<string> := {"title", "description", "status", "priority", "assignedTo"}

  /** The list filter: a truthy query parameter must match exactly, and a
      falsy one imposes nothing. */
  predicate Matches(b: Bug, q: Query): (r: bool)
    ensures !Truthy(q.status) && !Truthy(q.priority) ==> r
    ensures Truthy(q.status) && b.status != q.status.value ==> !r
    ensures Truthy(q.priority) && b.priority != q.priority.value ==> !r
  {
    && (Truthy(q.status) ==> b.status == q.status.value)
    && (Truthy(q.priority) ==> b.priority == q.priority.value)
  }

  /** Newest first: `createdAt` strictly decreases along the list. */
  predicate NewestFirst(bugs: seq<Bug>)
  {
    forall i, j :: 0 <= i < j < |bugs| ==> bugs[i].createdAt > bugs[j].createdAt
  }

  /** The document the create route stores for a validated body: the
      sanitised text fields, a truthy status or priority as given, and the
      defaults for a falsy status, priority or assignee. */
  function NewBug(body: BugInput, id: BugId, createdAt: nat): (b: Bug)
    requires body.title.Some? && body.description.Some? && body.reportedBy.Some?
    ensures b.id == id && b.createdAt == createdAt
    ensures b.title == SanitizeString(body.title.value)
    ensures b.description == SanitizeString(body.description.value)
    ensures b.reportedBy == SanitizeString(body.reportedBy.value)
    ensures BracketFree(b.title) && BracketFree(b.description) && BracketFree(b.reportedBy)
    ensures Truthy(body.status) ==> b.status == body.status.value
    ensures !Truthy(body.status) ==> b.status == "open"
    ensures Truthy(body.priority) ==> b.priority == body.priority.value
    ensures !Truthy(body.priority) ==> b.priority == "medium"
    ensures Truthy(body.assignedTo) ==> b.assignedTo == SanitizeString(body.assignedTo.value)
    ensures !Truthy(body.assignedTo) ==> b.assignedTo == "Unassigned"
    ensures Truthy(body.assignedTo) ==> BracketFree(b.assignedTo)
  {
    Bug(id,
        SanitizeString(body.title.value),
        SanitizeString(body.description.value),
        SanitizeString(body.reportedBy.value),
        if Truthy(body.status) then body.status.value else "open",
        if Truthy(body.priority) then body.priority.value else "medium",
        if Truthy(body.assignedTo) then SanitizeString(body.assignedTo.value) else "Unassigned",
        createdAt)
  }

  /** The reporter is not among the updatable fields. */
  lemma ReporterNotUpdatable()
    ensures "reportedBy" !in AllowedUpdates
  {
    assert "reportedBy"[0] == 'r';
    assert "title"[0] == 't' && "description"[0] == 'd' && "status"[0] == 's';
    assert "priority"[0] == 'p' && "assignedTo"[0] == 'a';
  }

  /** The update set built from a request body: the allowed keys, each value
      sanitised. It never names the reporter. */
  function AllowedPatch(body: map<string, string>): (patch: map<string, string>)
    ensures patch.Keys <= AllowedUpdates && "reportedBy" !in patch
    ensures forall k :: k in patch ==> BracketFree(patch[k])
  {
    ReporterNotUpdatable();
    map k | k in body && k in AllowedUpdates :: SanitizeString(body[k])
  }

  /** The store's partial update: every field named in the patch takes its
      value. Id, reporter and creation time are not fields a patch can name,
      and a patch naming no allowed field changes nothing. */
  function ApplyUpdates(b: Bug, patch: map<string, string>): (u: Bug)
    ensures u.id == b.id && u.reportedBy == b.reportedBy && u.createdAt == b.createdAt
    ensures patch.Keys !! AllowedUpdates ==> u == b
  {
    b.(title := if "title" in patch then patch["title"] else b.title,
       description := if "description" in patch then patch["description"] else b.description,
       status := if "status" in patch then patch["status"] else b.status,
       priority := if "priority" in patch then patch["priority"] else b.priority,
       assignedTo := if "assignedTo" in patch then patch["assignedTo"] else b.assignedTo)
  }

  /** A map holding exactly the allowed keys of `body`, each sanitised, is
      the update set. */
  lemma PatchFromEntries(body: map<string, string>, updates: map<string, string>)
    requires forall k :: k in updates ==> k in body && k in AllowedUpdates
    requires forall k :: k in updates ==> updates[k] == SanitizeString(body[k])
    requires forall k :: k in body && k in AllowedUpdates ==> k in updates
    ensures updates == AllowedPatch(body)
  {
    assert updates.Keys == AllowedPatch(body).Keys;
  }

  /** The update route's `forEach` over the body's keys, filling `updates`. */
  method BuildUpdates(body: map<string, string>) returns (updates: map<string, string>)
    ensures updates == AllowedPatch(body)
  {
    updates := map[];
    var keys := body.Keys;
    while keys != {}
      invariant keys <= body.Keys
      invariant forall k :: k in updates ==> k in body && k !in keys && k in AllowedUpdates
      invariant forall k :: k in updates ==> updates[k] == SanitizeString(body[k])
      invariant forall k :: k in body && k !in keys && k in AllowedUpdates ==> k in updates
      decreases keys
    {
      var key :| key in keys;
      if key in AllowedUpdates {
        updates := updates[key := SanitizeString(body[key])];
      }
      keys := keys - {key};
    }
    PatchFromEntries(body, updates);
  }

  /** A body that passes validation is stored with a status and a priority
      from their enumerations: an unset one takes its default, a set one was
      checked. */
  lemma ValidCreateHasEnumValues(body: BugInput, id: BugId, createdAt: nat)
    requires ValidateBugData(body).isValid
    ensures body.title.Some? && body.description.Some? && body.reportedBy.Some?
    ensures NewBug(body, id, createdAt).status in ValidStatuses
    ensures NewBug(body, id, createdAt).priority in ValidPriorities
  {
  }

  /** Validation looks at the raw body, so a title made only of brackets
      (`"<<<"`, say) passes the length rule and is stored empty. */
  lemma ValidatedTitleCanBeStoredEmpty(title: string)
    requires |title| >= 3 && forall i :: 0 <= i < |title| ==> IsBracket(title[i])
    ensures !TooShort(Some(title), 3)
    ensures SanitizeString(title) == []
  {
    assert !IsWhitespace(title[0]) && !IsWhitespace(title[|title| - 1]);
    UntrimmedFieldPasses(title, 3);
    assert Trim(title) == title by {
      TrimOfTrimmed(title);
    }
    StripOnlyBrackets(title);
  }

  /** A valid body whose title has no brackets and no surrounding whitespace,
      and which sets a priority, is stored with that title and that priority. */
  lemma CleanTitleAndPriorityStoredAsGiven(body: BugInput, id: BugId, createdAt: nat)
    requires ValidateBugData(body).isValid
    requires Truthy(body.priority)
    requires body.title.Some? && BracketFree(body.title.value)
    requires var t := body.title.value;
             t == [] || (!IsWhitespace(t[0]) && !IsWhitespace(t[|t| - 1]))
    ensures body.description.Some? && body.reportedBy.Some?
    ensures NewBug(body, id, createdAt).title == body.title.value
    ensures NewBug(body, id, createdAt).priority == body.priority.value
    ensures NewBug(body, id, createdAt).priority in ValidPriorities
  {
    var t := body.title.value;
    SanitizeBracketFreeIsTrim(t);
    TrimOfTrimmed(t);
  }

  /** An update changes exactly the allowed fields the body names, each to its
      sanitised value, and nothing else: not `reportedBy`, the id or `createdAt`,
      whatever the body says about them. */
  lemma UpdateChangesOnlyAllowedFields(b: Bug, body: map<string, string>)
    ensures var u := ApplyUpdates(b, AllowedPatch(body));
            && u.id == b.id && u.reportedBy == b.reportedBy && u.createdAt == b.createdAt
            && u.title == (if "title" in body then SanitizeString(body["title"]) else b.title)
            && u.description == (if "description" in body then SanitizeString(body["description"]) else b.description)
            && u.status == (if "status" in body then SanitizeString(body["status"]) else b.status)
            && u.priority == (if "priority" in body then SanitizeString(body["priority"]) else b.priority)
            && u.assignedTo == (if "assignedTo" in body then SanitizeString(body["assignedTo"]) else b.assignedTo)
  {
  }

  /** Keys outside the allow-list have no effect on the update set. */
  lemma PatchIgnoresOtherKeys(body: map<string, string>, extra: map<string, string>)
    requires extra.Keys !! AllowedUpdates
    ensures AllowedPatch(body + extra) == AllowedPatch(body - extra.Keys)
  {
    var l, r := AllowedPatch(body + extra), AllowedPatch(body - extra.Keys);
    forall k | k in AllowedUpdates
      ensures (k in l <==> k in r) && (k in l ==> l[k] == r[k])
    {
      assert k !in extra;
      if k in body {
        assert (body + extra)[k] == body[k];
      }
    }
    assert l.Keys == r.Keys;
  }

  /** Sending the same update twice is the same as sending it once. */
  lemma ApplyUpdatesIdempotent(b: Bug, patch: map<string, string>)
    ensures ApplyUpdates(ApplyUpdates(b, patch), patch) == ApplyUpdates(b, patch)
  {
  }

  /** A newest-first list holds no bug twice. */
  lemma NewestFirstHasNoDuplicates(bugs: seq<Bug>)
    requires NewestFirst(bugs)
    ensures forall i, j :: 0 <= i < j < |bugs| ==> bugs[i] != bugs[j]
  {
  }

  /** The bug collection behind the five routes. Ids and creation times are
      drawn from one counter, so a higher id is a newer document. */
  class BugStore {
    var bugs: map<BugId, Bug>
    var clock: nat

    ghost predicate Valid()
      reads this
    {
      forall k :: k in bugs ==> bugs[k].id == k && bugs[k].createdAt == k && k < clock
    }

    constructor ()
      ensures Valid() && bugs == map[] && clock == 0
    {
      bugs := map[];
      clock := 0;
    }

    /** GET `/`: the matching bugs, newest first, with their count. */
    method ListBugs(q: Query) returns (r: Response)
      requires Valid()
      ensures r.status == 200 && r.success && r.payload.DataList?
      ensures r.payload.count == |r.payload.bugs|
      ensures forall b :: b in r.payload.bugs ==> b.id in bugs && bugs[b.id] == b && Matches(b, q)
      ensures forall k :: k in bugs && Matches(bugs[k], q) ==> bugs[k] in r.payload.bugs
      ensures NewestFirst(r.payload.bugs)
    {
      var found: seq<Bug> := [];
      var i := clock;
      while i > 0
        invariant 0 <= i <= clock
        invariant forall b :: b in found ==> b.id in bugs && bugs[b.id] == b && Matches(b, q) && b.createdAt >= i
        invariant forall k :: k in bugs && i <= k && Matches(bugs[k], q) ==> bugs[k] in found
        invariant NewestFirst(found)
      {
        i := i - 1;
        if i in bugs && Matches(bugs[i], q) {
          found := found + [bugs[i]];
        }
      }
      r := Response(200, true, DataList(|found|, found));
    }

    /** GET `/:id` */
    method GetBug(id: BugId) returns (r: Response)
      ensures id !in bugs ==> r == NotFound
      ensures id in bugs ==> r == Response(200, true, Data(bugs[id]))
    {
      if id !in bugs {
        return NotFound;
      }
      r := Response(200, true, Data(bugs[id]));
    }

    /** POST `/`: validate the raw body, then store its sanitised form. */
    method CreateBug(body: BugInput) returns (r: Response)
      requires Valid()
      modifies this
      ensures Valid()
      ensures !ValidateBugData(body).isValid ==>
                && r == Response(400, false, ErrorDetails("Validation failed", ValidateBugData(body).errors))
                && bugs == old(bugs) && clock == old(clock)
      ensures ValidateBugData(body).isValid ==>
                && old(clock) !in old(bugs)
                && bugs == old(bugs)[old(clock) := NewBug(body, old(clock), old(clock))]
                && |bugs| == |old(bugs)| + 1
                && r == Response(201, true, Data(NewBug(body, old(clock), old(clock))))
                && clock == old(clock) + 1
    {
      var validation := ValidateBugData(body);
      if !validation.isValid {
        return Response(400, false, ErrorDetails("Validation failed", validation.errors));
      }
      var bug := NewBug(body, clock, clock);
      bugs := bugs[clock := bug];
      clock := clock + 1;
      r := Response(201, true, Data(bug));
    }

    /** PUT `/:id`: apply the allow-listed, sanitised fields of the body. */
    method UpdateBug(id: BugId, body: map<string, string>) returns (r: Response)
      requires Valid()
      modifies this
      ensures Valid() && clock == old(clock)
      ensures id !in old(bugs) ==> r == NotFound && bugs == old(bugs)
      ensures id in old(bugs) ==>
                && bugs == old(bugs)[id := ApplyUpdates(old(bugs)[id], AllowedPatch(body))]
                && r == Response(200, true, Data(bugs[id]))
    {
      if id !in bugs {
        return NotFound;
      }
      var updates := BuildUpdates(body);
      var updated := ApplyUpdates(bugs[id], updates);
      bugs := bugs[id := updated];
      r := Response(200, true, Data(updated));
    }

    /** DELETE `/:id` */
    method DeleteBug(id: BugId) returns (r: Response)
      requires Valid()
      modifies this
      ensures Valid() && clock == old(clock)
      ensures id !in old(bugs) ==> r == NotFound && bugs == old(bugs)
      ensures id in old(bugs) ==>
                && bugs == old(bugs) - {id}
                && r == Response(200, true, Message("Bug deleted successfully"))
    {
      if id !in bugs {
        return NotFound;
      }
      bugs := bugs - {id};
      r := Response(200, true, Message("Bug deleted successfully"));
    }
  }

  /** Deleting a bug and then asking for it yields 404; every other bug stays. */
  method DeleteThenGet(store: BugStore, id: BugId) returns (deleted: Response, fetched: Response)
    requires store.Valid() && id in store.bugs
    modifies store
    ensures deleted.status == 200 && fetched == NotFound
    ensures forall k :: k in old(store.bugs) && k != id ==> k in store.bugs && store.bugs[k] == old(store.bugs)[k]
  {
    deleted := store.DeleteBug(id);
    fetched := store.GetBug(id);
  }
}
