/**
 * Model of src/state_manager.py: the Streamlit session state is a map from
 * names to values, filled with defaults on start-up and overwritten with
 * them on reset.
 */
module StateManager {

  /** A value held in the session state: `None`, a flag, a string, or anything else the app stores. */
  datatype Value = NoneValue | BoolValue(b: bool) | StrValue(s: string) | OtherValue(tag: nat)

  /** The keys of `session_defaults`, in the order the dictionary lists them. */
  const DefaultKeys: seq<string> := [
    "download_completed", "audio_path", "podcast_title", "podcast_host", "publish_date",
    "podcast_url", "transcript", "transcript_path", "analysis", "is_analyzing", "is_transcribing"]

  /** The three flags; every other default is `None`. */
  const FlagKeys: set<string> := {"download_completed", "is_analyzing", "is_transcribing"}

  /** `session_defaults`. */
  function Defaults(): map<string, Value> {
    map[
      "download_completed" := BoolValue(false),
      "audio_path" := NoneValue,
      "podcast_title" := NoneValue,
      "podcast_host" := NoneValue,
      "publish_date" := NoneValue,
      "podcast_url" := NoneValue,
      "transcript" := NoneValue,
      "transcript_path" := NoneValue,
      "analysis" := NoneValue,
      "is_analyzing" := BoolValue(false),
      "is_transcribing" := BoolValue(false)]
  }

  /** The defaults of the listed keys. */
  function DefaultsFor(keys: seq<string>): map<string, Value>
    requires forall i :: 0 <= i < |keys| ==> keys[i] in Defaults()
  {
    map k | k in keys :: Defaults()[k]
  }

  /** `state` with each key of `defaults` it lacks added with its default value. */
  function FillMissing(state: map<string, Value>, defaults: map<string, Value>): map<string, Value> {
    map k | k in state.Keys + defaults.Keys :: if k in state then state[k] else defaults[k]
  }

  /** The session state after `init_session_state`. */
  function WithDefaults(state: map<string, Value>): map<string, Value> {
    FillMissing(state, Defaults())
  }

  /** The session state after `reset_session_state`: `dict.update` with the defaults. */
  function Reset(state: map<string, Value>): map<string, Value> {
    state + Defaults()
  }

  lemma DefaultKeysAreTheDefaults()
    ensures forall i :: 0 <= i < |DefaultKeys| ==> DefaultKeys[i] in Defaults()
    ensures DefaultsFor(DefaultKeys) == Defaults()
  {
  }

  /** The defaults: the listed keys, the three flags False and the rest None. */
  lemma DefaultValues()
    ensures |DefaultKeys| == 11
    ensures forall k :: k in Defaults() <==> k in DefaultKeys
    ensures forall k :: k in Defaults() ==> Defaults()[k] == (if k in FlagKeys then BoolValue(false) else NoneValue)
  {
  }

  /** One turn of the loop of `init_session_state`. */
  lemma FillMissingStep(initial: map<string, Value>, keys: seq<string>, key: string)
    requires forall i :: 0 <= i < |keys| ==> keys[i] in Defaults()
    requires key in Defaults()
    ensures var cur := FillMissing(initial, DefaultsFor(keys));
      FillMissing(initial, DefaultsFor(keys + [key]))
      == if key in cur then cur else cur[key := Defaults()[key]]
  {
    var m := DefaultsFor(keys);
    assert DefaultsFor(keys + [key]) == m[key := Defaults()[key]];
  }

  /** After initialisation every default key is present. */
  lemma InitAddsAllDefaults(state: map<string, Value>)
    ensures Defaults().Keys <= WithDefaults(state).Keys
    ensures forall k :: k in Defaults() && k !in state ==> WithDefaults(state)[k] == Defaults()[k]
  {
  }

  /** Initialisation never changes a key that was already present, nor adds any key outside the defaults. */
  lemma InitKeepsExisting(state: map<string, Value>)
    ensures forall k :: k in state ==> k in WithDefaults(state) && WithDefaults(state)[k] == state[k]
    ensures forall k :: k !in Defaults() ==> (k in WithDefaults(state) <==> k in state)
  {
  }

  /** Initialising twice is initialising once. */
  lemma InitIdempotent(state: map<string, Value>)
    ensures WithDefaults(WithDefaults(state)) == WithDefaults(state)
  {
  }

  /** After a reset every default key holds its default, whatever it held before; other keys are untouched. */
  lemma ResetRestoresDefaults(state: map<string, Value>)
    ensures forall k :: k in Defaults() ==> k in Reset(state) && Reset(state)[k] == Defaults()[k]
    ensures forall k :: k !in Defaults() ==> (k in Reset(state) <==> k in state)
    ensures forall k :: k !in Defaults() && k in state ==> Reset(state)[k] == state[k]
  {
  }

  /** Initialising after a reset changes nothing. */
  lemma InitAfterReset(state: map<string, Value>)
    ensures WithDefaults(Reset(state)) == Reset(state)
  {
  }

  /** Initialising a fresh session gives exactly the defaults. */
  lemma InitFresh()
    ensures WithDefaults(map[]) == Defaults()
  {
  }

  /** `st.session_state`. */
  class SessionState {
    var entries: map<string, Value>

    constructor(initial: map<string, Value>)
      ensures entries == initial
    {
      entries := initial;
    }

    /** `init_session_state`: for each default, in order, insert it when its key is missing. */
    method InitSessionState()
      modifies this
      ensures entries == WithDefaults(old(entries))
    {
      DefaultKeysAreTheDefaults();
      ghost var initial := entries;
      for i := 0 to |DefaultKeys|
        invariant entries == FillMissing(initial, DefaultsFor(DefaultKeys[..i]))
      {
        var key := DefaultKeys[i];
        assert DefaultKeys[..i + 1] == DefaultKeys[..i] + [key];
        FillMissingStep(initial, DefaultKeys[..i], key);
        if key !in entries {
          entries := entries[key := Defaults()[key]];
        }
      }
      assert DefaultKeys[..|DefaultKeys|] == DefaultKeys;
    }

    /** `reset_session_state`: `st.session_state.update(session_defaults)`. */
    method ResetSessionState()
      modifies this
      ensures entries == Reset(old(entries))
    {
      entries := entries + Defaults();
    }
  }
}
