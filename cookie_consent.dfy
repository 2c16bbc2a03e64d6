/**
 * `src/components/cookies/CookieConsent.tsx`: the stored decision, the banner's visibility and
 * its Accept and Decline buttons. `dispatchEvent` runs the consent listener of the cookie storage
 * before it returns, so each button's effect includes the listener's. The no-op store update that
 * Accept issues to re-persist the store, and the console warnings, are not modelled.
 */
module CookieConsent {
  import opened Wrappers
  import opened CookieStorage
  import opened UriComponent

  datatype Decision = Granted | Denied

  /** `getDecision`: only the exact strings 'granted' and 'denied' are decisions; anything else,
      or a throwing localStorage, is none. */
  function GetDecision(local: map<string, string>, available: bool): (r: Option<Decision>)
    ensures r == Some(Granted) <==> Consent(local, available)
    ensures r == Some(Denied) <==> LsGet(local, available, ConsentKey) == Some("denied")
    ensures r == None <==> LsGet(local, available, ConsentKey) !in {Some("granted"), Some("denied")}
  {
    match LsGet(local, available, ConsentKey)
    case Some(v) =>
      if v == "granted" then Some(Granted) else if v == "denied" then Some(Denied) else None
    case None => None
  }

  /** The banner's `visible` state. */
  class ConsentBanner {
    var visible: bool

    /** `useState(false)`. */
    constructor ()
      ensures !visible
    {
      visible := false;
    }

    /** The mount effect: show the banner when no decision is stored. */
    method Mount(storage: BrowserStorage)
      modifies this`visible
      ensures visible <==> old(visible) || GetDecision(storage.local, storage.localAvailable).None?
    {
      var decision := GetDecision(storage.local, storage.localAvailable);
      if decision.None? {
        visible := true;
      }
    }

    /** `accept`: store 'granted' (a failed write is only logged), hide the banner, announce
        'granted'. */
    method Accept(storage: BrowserStorage)
      modifies this`visible, storage`jar, storage`local
      ensures !visible
      ensures var local1 := LsSet(old(storage.local), storage.localAvailable, storage.localWritable, ConsentKey, "granted");
              && storage.jar == JarAfterConsentChange(old(storage.jar), local1, storage.localAvailable, "granted")
              && storage.local == LocalAfterConsentChange(local1, storage.localAvailable, "granted")
      // the stored decision is 'granted' when the write lands, and what it was before otherwise
      ensures GetDecision(storage.local, storage.localAvailable) ==
                if storage.localAvailable && storage.localWritable then Some(Granted)
                else old(GetDecision(storage.local, storage.localAvailable))
      ensures storage.HasCookieConsent() <==>
                storage.localAvailable && (storage.localWritable || old(storage.HasCookieConsent()))
    {
      storage.SetLocal(ConsentKey, "granted");
      visible := false;
      storage.OnConsentChanged("granted");
    }

    /** `decline`: store 'denied' (a failed write is only logged), hide the banner, remove the
        persisted store from both places, announce 'denied'. */
    method Decline(storage: BrowserStorage)
      modifies this`visible, storage`jar, storage`local
      ensures !visible
      ensures var local1 := LsSet(old(storage.local), storage.localAvailable, storage.localWritable, ConsentKey, "denied");
              && storage.jar == RemoveCookieFrom(RemoveCookieFrom(old(storage.jar), StoreKey), StoreKey)
              && storage.local == LsRemove(local1, storage.localAvailable, StoreKey)
      // the stored decision is 'denied' when the write lands, and what it was before otherwise
      ensures GetDecision(storage.local, storage.localAvailable) ==
                if storage.localAvailable && storage.localWritable then Some(Denied)
                else old(GetDecision(storage.local, storage.localAvailable))
      ensures storage.HasCookieConsent() <==> !storage.localWritable && old(storage.HasCookieConsent())
      ensures CookieValue(storage.jar, StoreKey) == None
      ensures LsGet(storage.local, storage.localAvailable, StoreKey) == None
    {
      storage.SetLocal(ConsentKey, "denied");
      visible := false;
      storage.RemoveItem(StoreKey);
      storage.OnConsentChanged("denied");
      RemoveCookieSpec(RemoveCookieFrom(old(storage.jar), StoreKey), StoreKey);
    }
  }

  /** After Accept, with localStorage reading and writing, a store value that was kept in
      localStorage is read back unchanged from its cookie. */
  lemma AcceptKeepsStoredStore(jar: seq<Cookie>, local: map<string, string>, value: string)
    requires WellFormedJar(jar) && StoreKey in local && local[StoreKey] == value
    ensures var local1 := LsSet(local, true, true, ConsentKey, "granted");
            var jar' := JarAfterConsentChange(jar, local1, true, "granted");
            var local' := LocalAfterConsentChange(local1, true, "granted");
            && Consent(local', true)
            && ItemOf(jar', local', true, StoreKey) == Some(value)
            && StoreKey !in local'
  {
    var local1 := LsSet(local, true, true, ConsentKey, "granted");
    assert LsGet(local1, true, StoreKey) == Some(value);
    GrantedMigrationKeepsStore(jar, local1, true);
  }

  /** When `setItem` throws while reads work, Accept stores no decision: with none stored before,
      there is still none afterwards, so consent does not hold and the next mount shows the banner
      again. The listener still moves a persisted store from localStorage into its cookie, which
      `getItem` does not read without consent, so the store can no longer be read back. */
  lemma RefusedAcceptLeavesNoDecision(jar: seq<Cookie>, local: map<string, string>)
    requires GetDecision(local, true).None?
    ensures var local1 := LsSet(local, true, false, ConsentKey, "granted");
            var jar' := JarAfterConsentChange(jar, local1, true, "granted");
            var local' := LocalAfterConsentChange(local1, true, "granted");
            && GetDecision(local', true).None?
            && !Consent(local', true)
            && ItemOf(jar', local', true, StoreKey) == None
            && (StoreKey in local ==> jar' == SetCookieIn(jar, StoreKey, EncodeUriComponent(local[StoreKey])))
  {
  }
}
