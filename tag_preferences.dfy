/**
  * The save / follow / hide icons of a tag (`TagPreferenceIcons`). Each icon toggles
  * one preference at once and sends the request; if the request fails the earlier set
  * comes back. Only one toggle is outstanding at a time. A toggle is modelled in two
  * steps: `Toggle` runs up to the moment the request is sent, and `Settle` runs when
  * its outcome is known.
  */
module TagPreferences {
  import opened Wrappers

  datatype Preference = Saved | Followed | Hidden

  /** The set with `pref` added when it was absent and removed when it was present. */
  function Flip(active: set<Preference>, pref: Preference): (r: set<Preference>)
    ensures pref in r <==> pref !in active
    ensures forall q :: q != pref ==> (q in r <==> q in active)
  {
    if pref in active then active - {pref} else active + {pref}
  }

  /** Two toggles of the same preference give back the set they started from. */
  lemma FlipTwice(active: set<Preference>, pref: Preference)
    ensures Flip(Flip(active, pref), pref) == active
  {
  }

  /** Toggles of different preferences do not interfere: their order does not matter. */
  lemma FlipCommutes(active: set<Preference>, p: Preference, q: Preference)
    ensures Flip(Flip(active, p), q) == Flip(Flip(active, q), p)
  {
  }

  class PreferenceIcons {
    const tagId: string
    var active: set<Preference>
    /** The preference whose request is outstanding. */
    var loading: Option<Preference>
    /** The set before the outstanding toggle, kept for the rollback. */
    var previous: set<Preference>

    constructor (tagId: string)
      ensures this.tagId == tagId && active == {} && loading.None?
    {
      this.tagId := tagId;
      active := {};
      loading := None;
      previous := {};
    }

    /** The fetch of the caller's preferences for the tag; `None` is a failed request. */
    method FetchPrefs(fetched: Option<seq<Preference>>)
      modifies this
      ensures fetched.Some? ==> active == set p | p in fetched.value
      ensures fetched.None? ==> active == old(active)
      ensures loading == old(loading) && previous == old(previous)
    {
      if fetched.Some? {
        active := set p | p in fetched.value;
      }
    }

    /**
      * A click on the icon for `pref`: signed out or while a toggle is outstanding it does
      * nothing; otherwise it flips `pref` and returns the preference to send.
      */
    method Toggle(signedIn: bool, pref: Preference) returns (request: Option<Preference>)
      modifies this
      ensures !signedIn || old(loading).Some? ==>
        request.None? && active == old(active) && loading == old(loading) && previous == old(previous)
      ensures signedIn && old(loading).None? ==>
        && request == Some(pref) && loading == Some(pref)
        && active == Flip(old(active), pref) && previous == old(active)
    {
      if !signedIn || loading.Some? {
        return None;
      }
      previous := active;
      active := Flip(active, pref);
      loading := Some(pref);
      return Some(pref);
    }

    /** The request's outcome: on failure the set before the toggle comes back. */
    method Settle(ok: bool)
      requires loading.Some?
      modifies this
      ensures loading.None? && previous == old(previous)
      ensures active == if ok then old(active) else old(previous)
    {
      if !ok {
        active := previous;
      }
      loading := None;
    }
  }
}
