/** The client helpers (data/clients.ts): filters by status and coach, the
    search, the summary counts, and the validation and clean-up of partial
    client records. Each helper reads the module's client list; here that
    list is the parameter `clients`, and `Roster.Clients` holds its value. */
module Clients {
  import opened Common
  import opened Types

  // ---------------------------------------------------------------------------
  // Filters
  // ---------------------------------------------------------------------------

  /** `getClientsByStatus(status)`: the clients with that status, in
      list order. */
  function GetClientsByStatus(clients: seq<Client>, status: ClientStatus): (r: seq<Client>)
    ensures forall c :: c in r <==> c in clients && c.status == status
  {
    Filter(clients, (c: Client) => c.status == status)
  }

  /** `getActiveClients()`. */
  function GetActiveClients(clients: seq<Client>): (r: seq<Client>)
    ensures forall c :: c in r <==> c in clients && c.status == Active
  {
    Filter(clients, (c: Client) => c.status == Active)
  }

  /** The active filter is the status filter at `active`, order included. */
  lemma ActiveClientsAreByStatus(clients: seq<Client>)
    ensures GetActiveClients(clients) == GetClientsByStatus(clients, Active)
  {
    FilterEquivalent(clients, (c: Client) => c.status == Active, (c: Client) => c.status == Active);
  }

  /** `getClientsByCoach(coachId)`. */
  function GetClientsByCoach(clients: seq<Client>, coachId: string): (r: seq<Client>)
    ensures forall c :: c in r <==> c in clients && c.coachId == coachId
  {
    Filter(clients, (c: Client) => c.coachId == coachId)
  }

  // ---------------------------------------------------------------------------
  // Search
  // ---------------------------------------------------------------------------

  /** The search test: the lower-cased name or e-mail contains the lower-cased
      query. A client without an e-mail is matched on the name alone. */
  predicate SearchMatches(c: Client, query: string)
  {
    Contains(Lower(c.name), Lower(query)) ||
    (c.email.Some? && Contains(Lower(c.email.value), Lower(query)))
  }

  /** `searchClients(query)`: the clients whose name or e-mail match,
      in list order; the phone number is not consulted. */
  function SearchClients(clients: seq<Client>, query: string): (r: seq<Client>)
    ensures forall c :: c in r <==> c in clients && SearchMatches(c, query)
  {
    var q := Lower(query);
    Filter(clients, (c: Client) => Contains(Lower(c.name), q) ||
                                  (c.email.Some? && Contains(Lower(c.email.value), q)))
  }

  /** The empty query finds every client. */
  lemma SearchEmptyFindsAll(clients: seq<Client>)
    ensures SearchClients(clients, "") == clients
  {
    FilterAll(clients, (c: Client) => Contains(Lower(c.name), Lower("")) ||
                                     (c.email.Some? && Contains(Lower(c.email.value), Lower(""))));
  }

  /** The query's letter case does not matter. */
  lemma SearchIgnoresCase(clients: seq<Client>, query: string)
    ensures SearchClients(clients, Lower(query)) == SearchClients(clients, query)
  {
    LowerIdempotent(query);
  }

  // ---------------------------------------------------------------------------
  // Summary
  // ---------------------------------------------------------------------------

  /** `getClientStats()`: unlike the service's version the rates are not
      guarded, so on an empty list they would be NaN. */
  function GetClientStats(clients: seq<Client>): (r: ClientStats)
    ensures r.total == |clients|
    ensures r.active == ClientStatusCount(clients, Active)
    ensures r.inactive == ClientStatusCount(clients, Inactive)
    ensures r.prospects == ClientStatusCount(clients, Prospect)
    ensures r.active + r.inactive + r.prospects == r.total
    ensures r.activePercentage == RoundedRatio(r.active, r.total)
    ensures r.conversionRate == RoundedRatio(r.active, r.active + r.prospects)
  {
    ClientStatusPartition(clients);
    var active := ClientStatusCount(clients, Active);
    var prospects := ClientStatusCount(clients, Prospect);
    ClientStats(|clients|, active, ClientStatusCount(clients, Inactive), prospects,
                RoundedRatio(active, |clients|), RoundedRatio(active, active + prospects))
  }

  // ---------------------------------------------------------------------------
  // Partial records: validation and clean-up
  // ---------------------------------------------------------------------------

  /** A field of a `Partial<Client>` object: a string, a date (milliseconds),
      a status, or an own property holding `undefined`. */
  datatype FieldValue = Undefined | Text(text: string) | Moment(millis: int) | StatusValue(status: ClientStatus)

  /** The object's own properties and their values. */
  type PartialClient = map<string, FieldValue>

  const RequiredFields: seq<string> := ["id", "name", "phone", "coachId", "status", "createdAt"]

  /** `validateClient(client)`: each required field is an own property of
      the object, whatever its value, even `undefined`. */
  function ValidateClient(client: PartialClient): (ok: bool)
    ensures ok <==> {"id", "name", "phone", "coachId", "status", "createdAt"} <= client.Keys
  {
    assert RequiredFields[0] == "id" && RequiredFields[1] == "name" && RequiredFields[2] == "phone";
    assert RequiredFields[3] == "coachId" && RequiredFields[4] == "status" && RequiredFields[5] == "createdAt";
    forall i :: 0 <= i < |RequiredFields| ==> RequiredFields[i] in client
  }

  /** A property set to `undefined` still counts as present. */
  lemma ValidateIgnoresValues(client: PartialClient, key: string)
    requires key in client
    ensures ValidateClient(client[key := Undefined]) == ValidateClient(client)
  {
  }

  /** The fields `sanitizeClientData` rewrites. */
  predicate IsCleanedField(key: string)
  {
    key == "name" || key == "email" || key == "phone" || key == "notes"
  }

  /** The field is a string or `undefined` when present, as the type
      `Partial<Client>` promises for the cleaned fields. */
  predicate TextOrUndefined(client: PartialClient, key: string)
  {
    key in client ==> client[key].Text? || client[key].Undefined?
  }

  predicate CleanedFieldsTyped(client: PartialClient)
  {
    TextOrUndefined(client, "name") && TextOrUndefined(client, "email") &&
    TextOrUndefined(client, "phone") && TextOrUndefined(client, "notes")
  }

  /** `client[key]?.f()`: `f` of a string field; `undefined` when the field
      is absent or undefined. */
  function MapText(client: PartialClient, key: string, f: string -> string): (v: FieldValue)
    ensures v.Text? || v.Undefined?
    ensures v.Text? <==> key in client && client[key].Text?
  {
    if key in client && client[key].Text? then Text(f(client[key].text)) else Undefined
  }

  /** `email.toLowerCase().trim()`. */
  function NormalizeEmail(email: string): string
  {
    Trim(Lower(email))
  }

  /** A normalised address is lower-case and trimmed, so normalising it again
      changes nothing. */
  lemma NormalizeEmailIdempotent(email: string)
    ensures NormalizeEmail(NormalizeEmail(email)) == NormalizeEmail(email)
  {
    LowerTrim(Lower(email));
    LowerIdempotent(email);
    TrimIdempotent(Lower(email));
  }

  /** `sanitizeClientData(client)`: name and notes trimmed, e-mail lower-cased
      and trimmed, every white-space character removed from the phone; the
      four keys are always present afterwards (undefined when they were
      missing); every other field is copied. */
  function SanitizeClientData(client: PartialClient): (r: PartialClient)
    requires CleanedFieldsTyped(client)
    ensures r.Keys == client.Keys + {"name", "email", "phone", "notes"}
    ensures forall k :: k in client && !IsCleanedField(k) ==> r[k] == client[k]
    ensures CleanedFieldsTyped(r)
    ensures r["name"] == MapText(client, "name", Trim)
    ensures r["email"] == MapText(client, "email", NormalizeEmail)
    ensures r["phone"] == MapText(client, "phone", RemoveSpaces)
    ensures r["notes"] == MapText(client, "notes", Trim)
  {
    client["name" := MapText(client, "name", Trim)]
          ["email" := MapText(client, "email", NormalizeEmail)]
          ["phone" := MapText(client, "phone", RemoveSpaces)]
          ["notes" := MapText(client, "notes", Trim)]
  }

  /** Cleaning a field a second time keeps it when `f` is idempotent on
      the field's first value. */
  lemma MapTextAgain(client: PartialClient, once: PartialClient, key: string, f: string -> string)
    requires key in once && once[key] == MapText(client, key, f)
    requires key in client && client[key].Text? ==> f(f(client[key].text)) == f(client[key].text)
    ensures MapText(once, key, f) == once[key]
  {
  }

  /** Cleaning a cleaned record changes nothing. */
  lemma SanitizeIdempotent(client: PartialClient)
    requires CleanedFieldsTyped(client)
    ensures SanitizeClientData(SanitizeClientData(client)) == SanitizeClientData(client)
  {
    var once := SanitizeClientData(client);
    if "name" in client && client["name"].Text? {
      TrimIdempotent(client["name"].text);
    }
    MapTextAgain(client, once, "name", Trim);
    if "email" in client && client["email"].Text? {
      NormalizeEmailIdempotent(client["email"].text);
    }
    MapTextAgain(client, once, "email", NormalizeEmail);
    if "phone" in client && client["phone"].Text? {
      RemoveSpacesIdempotent(client["phone"].text);
    }
    MapTextAgain(client, once, "phone", RemoveSpaces);
    if "notes" in client && client["notes"].Text? {
      TrimIdempotent(client["notes"].text);
    }
    MapTextAgain(client, once, "notes", Trim);
    UpdateSame(once, "name", "email", "phone", "notes");
  }

  /** Writing back the values already held changes nothing. */
  lemma UpdateSame(m: PartialClient, a: string, b: string, c: string, d: string)
    requires a in m && b in m && c in m && d in m
    ensures m[a := m[a]][b := m[b]][c := m[c]][d := m[d]] == m
  {
  }

  /** After cleaning, `name` and `phone` are own properties, so validation
      then depends on the other four required fields only. */
  lemma ValidateAfterSanitize(client: PartialClient)
    requires CleanedFieldsTyped(client)
    ensures ValidateClient(SanitizeClientData(client)) <==>
      "id" in client && "coachId" in client && "status" in client && "createdAt" in client
  {
    var r := SanitizeClientData(client);
    assert "name" in r && "phone" in r;
    assert "id" in r <==> "id" in client;
    assert "coachId" in r <==> "coachId" in client;
    assert "status" in r <==> "status" in client;
    assert "createdAt" in r <==> "createdAt" in client;
  }
}
