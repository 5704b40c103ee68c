/** The administration panel: the listing of the configuration table with
    credential values masked, the generation on/off switch, and the forms
    that save and delete configuration entries through the configuration
    endpoint. */
module AdminPanel {
  import opened Js
  import ConfigApi

  type Row = ConfigApi.Row

  const GENERATION_ENABLED := "GENERATION_ENABLED"
  const MASK := "••••••••••••"

  // ---------------------------------------------------------------------
  // The generation switch.

  /** `configs.find(c => c.config_key === 'GENERATION_ENABLED')?.config_value === 'true'`. */
  predicate IsOn(configs: seq<Row>)
    ensures IsOn(configs) ==> exists x :: x in configs && x.key == GENERATION_ENABLED && x.value == "true"
    ensures (forall x :: x in configs ==> x.key != GENERATION_ENABLED) ==> !IsOn(configs)
  {
    var r := ConfigApi.Find(configs, GENERATION_ENABLED);
    r.Some? && r.value.value == "true"
  }

  /** `(!currentStatus).toString()`: the value the switch writes. */
  function ToggleValue(configs: seq<Row>): (v: string)
    ensures v == "false" <==> IsOn(configs)
    ensures v == "true" <==> !IsOn(configs)
  {
    if IsOn(configs) then "false" else "true"
  }

  /** In a listing with one row per key the switch reads "on" exactly when
      the `GENERATION_ENABLED` row holds the text `true`; a missing row, or
      any other text such as `TRUE` or `1`, reads "off". */
  lemma IsOnIffStoredTrue(configs: seq<Row>)
    requires ConfigApi.UniqueKeys(configs)
    ensures IsOn(configs) <==> exists x :: x in configs && x.key == GENERATION_ENABLED && x.value == "true"
  {
    var r := ConfigApi.Find(configs, GENERATION_ENABLED);
    if x :| x in configs && x.key == GENERATION_ENABLED && x.value == "true" {
      assert r.Some?;
      SameKeySameRow(configs, r.value, x);
    }
  }

  /** Two rows of a table with unique keys that share a key are one row. */
  lemma SameKeySameRow(rows: seq<Row>, x: Row, y: Row)
    requires ConfigApi.UniqueKeys(rows) && x in rows && y in rows && x.key == y.key
    ensures x == y
  {
    var i :| 0 <= i < |rows| && rows[i] == x;
    var j :| 0 <= j < |rows| && rows[j] == y;
    assert rows[i].key == rows[j].key;
  }

  /** Looking a key up in the same rows in another order gives the same row
      when keys are unique. */
  lemma FindIgnoresOrder(a: seq<Row>, b: seq<Row>, key: string)
    requires multiset(a) == multiset(b) && ConfigApi.UniqueKeys(b)
    ensures ConfigApi.Find(a, key) == ConfigApi.Find(b, key)
  {
    var ra, rb := ConfigApi.Find(a, key), ConfigApi.Find(b, key);
    forall x ensures x in a <==> x in b {
      assert x in a <==> multiset(a)[x] > 0;
      assert x in b <==> multiset(b)[x] > 0;
    }
    if ra.Some? && rb.Some? {
      SameKeySameRow(b, ra.value, rb.value);
    }
  }

  /** Pressing the switch flips it: writing `ToggleValue` of the current
      listing through the endpoint's upsert and reading the listing again
      shows the opposite state, whether or not the row existed before. */
  lemma ToggleFlips(rows: seq<Row>, id: nat, at: nat)
    requires ConfigApi.UniqueKeys(rows) && ConfigApi.UniqueIds(rows) && ConfigApi.Ascending(rows)
    requires forall x :: x in rows ==> x.id < id && x.createdAt < at
    ensures var v := ToggleValue(ConfigApi.Reverse(rows));
      IsOn(ConfigApi.Reverse(ConfigApi.Upserted(rows, GENERATION_ENABLED, v, id, at))) <==> !IsOn(ConfigApi.Reverse(rows))
  {
    var v := ToggleValue(ConfigApi.Reverse(rows));
    var rows' := ConfigApi.Upserted(rows, GENERATION_ENABLED, v, id, at);
    ConfigApi.UpsertSetsOneKey(rows, GENERATION_ENABLED, v, id, at);
    ConfigApi.ReverseMultiset(rows');
    FindIgnoresOrder(ConfigApi.Reverse(rows'), rows', GENERATION_ENABLED);
    ConfigApi.MappingAgreesWithFind(rows', GENERATION_ENABLED);
  }

  // ---------------------------------------------------------------------
  // Masking.

  /** A key whose value the listing hides. */
  predicate Masked(key: string)
    ensures Includes(key, "_KEY") || Includes(key, "_TOKEN") ==> Masked(key)
  {
    assert "_KEY" == ['_'] + "KEY" && "_TOKEN" == ['_'] + "TOKEN";
    IncludesTail(key, '_', "KEY");
    IncludesTail(key, '_', "TOKEN");
    Includes(key, "KEY") || Includes(key, "TOKEN") || key == ConfigApi.ADMIN_PASSCODE
  }

  /** The value column of a listed row. */
  function Displayed(row: Row): (shown: string)
    ensures Masked(row.key) ==> shown == MASK
    ensures !Masked(row.key) ==> shown == row.value
  {
    if Masked(row.key) then MASK else row.value
  }

  /** Masking by offsets: a key is masked exactly when `KEY` or `TOKEN`
      occurs in it at some position, or it is the admin passcode's key. */
  lemma MaskedByOccurrence(key: string)
    ensures Masked(key) <==>
      (exists i: nat :: OccursAt(key, "KEY", i)) || (exists i: nat :: OccursAt(key, "TOKEN", i)) ||
      key == ConfigApi.ADMIN_PASSCODE
  {
    if Includes(key, "KEY") {
      IncludesWitness(key, "KEY");
    }
    if Includes(key, "TOKEN") {
      IncludesWitness(key, "TOKEN");
    }
    if i: nat :| OccursAt(key, "KEY", i) {
      IncludesAt(key, "KEY", i);
    }
    if i: nat :| OccursAt(key, "TOKEN", i) {
      IncludesAt(key, "TOKEN", i);
    }
  }

  /** The credential names the panel suggests are hidden. */
  lemma SuggestedKeysHidden()
    ensures Masked("OPENAI_API_KEY") && Masked("GOOGLE_API_KEY")
    ensures Masked("HF_TOKEN") && Masked("REPLICATE_API_TOKEN")
  {
    HiddenBySuffix("OPENAI_API_KEY", "KEY");
    HiddenBySuffix("GOOGLE_API_KEY", "KEY");
    HiddenBySuffix("HF_TOKEN", "TOKEN");
    HiddenBySuffix("REPLICATE_API_TOKEN", "TOKEN");
  }

  /** A name ending in `KEY` or `TOKEN` is hidden. */
  lemma HiddenBySuffix(key: string, suffix: string)
    requires suffix == "KEY" || suffix == "TOKEN"
    requires |suffix| <= |key| && key[|key| - |suffix|..] == suffix
    ensures Masked(key)
  {
    IncludesAt(key, suffix, |key| - |suffix|);
  }

  /** The generation switch's value is shown. */
  lemma SwitchValueShown()
    ensures !Masked(GENERATION_ENABLED)
  {
    assert 'K' !in GENERATION_ENABLED;
    NotIncludedWithoutChar(GENERATION_ENABLED, "KEY", 0);
    NotIncludedWithoutChar(GENERATION_ENABLED, "TOKEN", 2);
  }

  // ---------------------------------------------------------------------
  // The panel's requests and state.

  /** A reply of the configuration endpoint as the panel reads it: the
      status, the body's `error` and, for a listing, the rows (`null` when
      the body is null). */
  datatype Reply = Reply(status: int, error: Option<string>, rows: Option<seq<Row>>)

  /** The save form's request. */
  function SaveRequest(passcode: string, key: string, value: string): ConfigApi.Request
  {
    ConfigApi.Request("POST", Some(passcode), Some(key), Some(value), None)
  }

  /** The delete button's request: by key only. */
  function DeleteRequest(passcode: string, key: string): ConfigApi.Request
  {
    ConfigApi.Request("DELETE", Some(passcode), Some(key), None, None)
  }

  /** Whatever the form would send passes the endpoint's own body checks:
      the form's guard is stricter (it also refuses an empty value, which
      the endpoint accepts), and a delete of a row with a non-empty key
      names a key. */
  lemma RequestsPassBodyChecks(passcode: string, key: string, value: string)
    ensures key != "" && value != "" ==>
      Truthy(SaveRequest(passcode, key, value).key) && SaveRequest(passcode, key, value).value.Some?
    ensures Truthy(SaveRequest(passcode, key, "").key) <==> key != ""
    ensures key != "" ==> !ConfigApi.IdTruthy(DeleteRequest(passcode, key).id) && Truthy(DeleteRequest(passcode, key).key)
  {
  }

  class Panel {
    const passcode: string
    var configs: seq<Row>
    var newKey: string
    var newValue: string
    var loading: bool

    constructor (passcode: string)
      ensures this.passcode == passcode
      ensures configs == [] && newKey == "" && newValue == "" && loading
    {
      this.passcode := passcode;
      configs := [];
      newKey := "";
      newValue := "";
      loading := true;
    }

    /** Reloading the listing: an ok reply replaces it (`data || []`);
        a failed request or status keeps the old one. Loading ends either
        way. */
    method FetchConfigs(reply: Call<Reply>)
      modifies this
      ensures !loading
      ensures reply.Returned? && Ok(reply.value.status) ==>
        configs == (if reply.value.rows.Some? then reply.value.rows.value else [])
      ensures !(reply.Returned? && Ok(reply.value.status)) ==> configs == old(configs)
      ensures newKey == old(newKey) && newValue == old(newValue)
    {
      loading := true;
      if reply.Returned? && Ok(reply.value.status) {
        var data := reply.value.rows;
        configs := if data.Some? then data.value else [];
      }
      loading := false;
    }

    /** The save form. With an empty key or value nothing is sent and
        nothing changes. Otherwise the pair is posted; a success clears both
        fields and reloads the listing from `refetch`, a failure keeps the
        fields and the listing and yields the alert text. */
    method SaveConfig(reply: Call<Reply>, refetch: Call<Reply>) returns (sent: Option<ConfigApi.Request>, alert: Option<string>)
      modifies this
      ensures sent.Some? <==> old(newKey) != "" && old(newValue) != ""
      ensures sent.Some? ==> sent.value == SaveRequest(passcode, old(newKey), old(newValue))
      ensures sent.None? ==>
        alert.None? && configs == old(configs) && newKey == old(newKey) &&
        newValue == old(newValue) && loading == old(loading)
      ensures sent.Some? && reply.Returned? && Ok(reply.value.status) ==>
        alert.None? && newKey == "" && newValue == "" && !loading &&
        configs == (if refetch.Returned? && Ok(refetch.value.status) then
                      (if refetch.value.rows.Some? then refetch.value.rows.value else [])
                    else old(configs))
      ensures sent.Some? && reply.Returned? && !Ok(reply.value.status) ==>
        alert == Some("Errore nel salvataggio: " +
          (if Truthy(reply.value.error) then reply.value.error.value else "Unknown error")) &&
        configs == old(configs) && newKey == old(newKey) && newValue == old(newValue) &&
        loading == old(loading)
      ensures sent.Some? && reply.Threw? ==>
        alert == Some("Errore di rete: " + reply.message) &&
        configs == old(configs) && newKey == old(newKey) && newValue == old(newValue) &&
        loading == old(loading)
    {
      if newKey == "" || newValue == "" {
        return None, None;
      }
      sent := Some(SaveRequest(passcode, newKey, newValue));
      match reply {
        case Threw(message) =>
          alert := Some("Errore di rete: " + message);
        case Returned(r) =>
          if !Ok(r.status) {
            alert := Some("Errore nel salvataggio: " + (if Truthy(r.error) then r.error.value else "Unknown error"));
          } else {
            alert := None;
            newKey := "";
            newValue := "";
            FetchConfigs(refetch);
          }
      }
    }

    /** The delete button of a listed row. Without confirmation nothing is
        sent. Otherwise the deletion by key is sent; a success reloads the
        listing, a failure yields the alert text. The form fields are kept. */
    method Delete(key: string, confirmed: bool, reply: Call<Reply>, refetch: Call<Reply>)
      returns (sent: Option<ConfigApi.Request>, alert: Option<string>)
      modifies this
      ensures sent.Some? <==> confirmed
      ensures sent.Some? ==> sent.value == DeleteRequest(passcode, key)
      ensures newKey == old(newKey) && newValue == old(newValue)
      ensures !(confirmed && reply.Returned? && Ok(reply.value.status)) ==> configs == old(configs) && loading == old(loading)
      ensures confirmed && reply.Returned? && Ok(reply.value.status) ==>
        alert.None? && !loading &&
        configs == (if refetch.Returned? && Ok(refetch.value.status) then
                      (if refetch.value.rows.Some? then refetch.value.rows.value else [])
                    else old(configs))
      ensures confirmed && reply.Returned? && !Ok(reply.value.status) ==>
        alert == Some("Errore nell'eliminazione: " +
          (if Truthy(reply.value.error) then reply.value.error.value else "Unknown error"))
      ensures confirmed && reply.Threw? ==> alert == Some("Errore di rete: " + reply.message)
      ensures !confirmed ==> alert.None?
    {
      if !confirmed {
        return None, None;
      }
      sent := Some(DeleteRequest(passcode, key));
      match reply {
        case Threw(message) =>
          alert := Some("Errore di rete: " + message);
        case Returned(r) =>
          if !Ok(r.status) {
            alert := Some("Errore nell'eliminazione: " + (if Truthy(r.error) then r.error.value else "Unknown error"));
          } else {
            alert := None;
            FetchConfigs(refetch);
          }
      }
    }

    /** The generation switch: it posts the opposite of the state the
        current listing shows and, unless the request throws, reloads the
        listing whatever the reply's status. */
    method Toggle(reply: Call<int>, refetch: Call<Reply>) returns (sent: ConfigApi.Request, alert: Option<string>)
      modifies this
      ensures sent == SaveRequest(passcode, GENERATION_ENABLED, ToggleValue(old(configs)))
      ensures sent.value == Some(if IsOn(old(configs)) then "false" else "true")
      ensures newKey == old(newKey) && newValue == old(newValue)
      ensures reply.Threw? ==>
        alert == Some("Errore aggiornamento stato: " + reply.message) && configs == old(configs) && loading == old(loading)
      ensures reply.Returned? ==>
        alert.None? && !loading &&
        configs == (if refetch.Returned? && Ok(refetch.value.status) then
                      (if refetch.value.rows.Some? then refetch.value.rows.value else [])
                    else old(configs))
    {
      sent := SaveRequest(passcode, GENERATION_ENABLED, ToggleValue(configs));
      match reply {
        case Threw(message) =>
          alert := Some("Errore aggiornamento stato: " + message);
        case Returned(_) =>
          alert := None;
          FetchConfigs(refetch);
      }
    }
  }
}
