/** The configuration page: the local key-value map, the add form and the
    field labels. */
module ConfigurazionePage {
  import opened Wrappers
  import Js
  import opened Configurazione
  import ConfigurazioneController

  const AddError := "Errore nell'aggiunta"

  /** The label table as written: its only key is one no code reads. */
  const ConfigLabels: map<string, string> := map["gruppi_contemporanei" := "Gruppi contemporanei gestibili"]

  /** The label table keyed by the setting the pages actually read. */
  const IntendedConfigLabels: map<string, string> :=
    map["gruppi_contemporanei_possibili" := "Gruppi contemporanei gestibili"]

  /** `labels[key] || key`: the label, or the raw key when there is none (or it is empty). */
  function FieldLabel(labels: map<string, string>, key: string): (l: string)
    ensures key in labels && labels[key] != "" ==> l == labels[key]
    ensures !(key in labels && labels[key] != "") ==> l == key
  {
    if key in labels && labels[key] != "" then labels[key] else key
  }

  /** The concurrency setting is shown under its raw key: the table's entry is
      never used. */
  lemma ConcurrencyLabelMissed()
    ensures FieldLabel(ConfigLabels, "gruppi_contemporanei_possibili") == "gruppi_contemporanei_possibili"
    ensures "gruppi_contemporanei" != "gruppi_contemporanei_possibili"
  {
    assert "gruppi_contemporanei_possibili" !in ConfigLabels by {
      assert "gruppi_contemporanei" != "gruppi_contemporanei_possibili" by {
        assert |"gruppi_contemporanei"| != |"gruppi_contemporanei_possibili"|;
      }
    }
  }

  /** With the corrected table the setting reads as its Italian label. */
  lemma ConcurrencyLabelShown()
    ensures FieldLabel(IntendedConfigLabels, "gruppi_contemporanei_possibili") == "Gruppi contemporanei gestibili"
    ensures FieldLabel(IntendedConfigLabels, "durata_media_gruppo") == "durata_media_gruppo"
  {
    assert "durata_media_gruppo" !in IntendedConfigLabels by {
      assert |"durata_media_gruppo"| != |"gruppi_contemporanei_possibili"|;
    }
  }

  /** An input the page lets through (not blank, no NUL) also passes the
      server's `required` rule. */
  lemma {:induction false} ClientGuardImpliesRequired(s: string)
    requires !Js.Blank(s)
    requires forall i :: 0 <= i < |s| ==> s[i] != '\0'
    ensures ConfigurazioneController.Required(Some(s))
  {
    var i :| 0 <= i < |s| && !Js.IsTrimmed(s[i]);
    assert !ConfigurazioneController.PhpTrimmed(s[i]);
  }

  /** When the page's map mirrors the table, a successful add keeps it a
      mirror: the local update and the server's upsert agree. */
  lemma AddMirrorsServer(config: map<string, string>, rows: seq<ConfigRow>, k: string, v: string)
    requires UniqueKeys(rows) && config == AllAssoc(rows)
    ensures config[k := v] == AllAssoc(ConfigurazioneController.Upsert(rows, k, v))
  {
    ConfigurazioneController.UpsertIsMapUpdate(rows, k, v);
  }

  /** The page's state. */
  class ConfigPage {
    var config: map<string, string>
    var saving: bool
    var error: Option<string>
    var success: bool
    var newKey: string
    var newValue: string

    constructor (loaded: map<string, string>)
      ensures config == loaded && !saving && error.None? && !success && newKey == "" && newValue == ""
    {
      config := loaded;
      saving, error, success := false, None, false;
      newKey, newValue := "", "";
    }

    /** Editing a field sets that key in the local map and no other. */
    method HandleChange(key: string, value: string)
      modifies this
      ensures config == old(config)[key := value]
      ensures forall k :: k in old(config) && k != key ==> k in config && config[k] == old(config)[k]
      ensures (saving, error, success, newKey, newValue) == old((saving, error, success, newKey, newValue))
    {
      config := config[key := value];
    }

    /** The add form: nothing happens when either input is blank once trimmed;
        otherwise the pair is sent, and `putOk` says whether the server took it. */
    method HandleAdd(putOk: bool) returns (sent: Option<(string, string)>)
      modifies this
      ensures Js.Blank(old(newKey)) || Js.Blank(old(newValue)) ==>
        sent.None? && config == old(config) && saving == old(saving) && error == old(error)
        && success == old(success) && newKey == old(newKey) && newValue == old(newValue)
      ensures !Js.Blank(old(newKey)) && !Js.Blank(old(newValue)) ==>
        sent == Some((old(newKey), old(newValue))) && !saving
      ensures !Js.Blank(old(newKey)) && !Js.Blank(old(newValue)) && putOk ==>
        && config == old(config)[old(newKey) := old(newValue)]
        && newKey == "" && newValue == "" && success && error.None?
      ensures !Js.Blank(old(newKey)) && !Js.Blank(old(newValue)) && !putOk ==>
        && config == old(config) && error == Some(AddError) && !success
        && newKey == old(newKey) && newValue == old(newValue)
    {
      if Js.Blank(newKey) || Js.Blank(newValue) {
        return None;
      }
      saving := true;
      error := None;
      success := false;
      sent := Some((newKey, newValue));
      if putOk {
        config := config[newKey := newValue];
        newKey := "";
        newValue := "";
        success := true;
      } else {
        error := Some(AddError);
      }
      saving := false;
    }
  }
}
