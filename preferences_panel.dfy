/** The logic of the ShepardDCS PreferencesPanel: the save location is made
    to end with the platform's separator when Save is pressed, stored in the
    preferences, and every registered listener hears "Saved". Listeners are
    named by numbers; the separator and the outcome of storing the
    preferences file are parameters. */
module Preferences {
  import opened Wrappers
  import opened JavaLang

  const SAVED: string := "Saved"

  // ---------------------------------------------------------------------
  // The save-location separator

  /** The text of the save-location field with a separator appended unless
      it already ends with one; None for empty text, where charAt(-1)
      raises StringIndexOutOfBoundsException. */
  function NormalizeLocation(text: string, sep: char): (r: Option<string>)
    ensures r.None? <==> text == []
  {
    if text == [] then None
    else if text[|text| - 1] != sep then Some(text + [sep])
    else Some(text)
  }

  /** The stored location always ends with the separator; text that already
      does is kept as it is, and any other gets exactly one separator more. */
  lemma NormalizedEndsWithSeparator(text: string, sep: char)
    requires text != []
    ensures var loc := NormalizeLocation(text, sep).value;
      loc != [] && loc[|loc| - 1] == sep &&
      (text[|text| - 1] == sep ==> loc == text) &&
      (text[|text| - 1] != sep ==> loc == text + [sep] && |loc| == |text| + 1)
  {
  }

  /** Normalising a normalised location changes nothing. */
  lemma NormalizeIdempotent(text: string, sep: char)
    requires text != []
    ensures NormalizeLocation(NormalizeLocation(text, sep).value, sep) == NormalizeLocation(text, sep)
  {
    var loc := NormalizeLocation(text, sep).value;
    NormalizedEndsWithSeparator(text, sep);
    assert loc[|loc| - 1] == sep;
  }

  // ---------------------------------------------------------------------
  // Listener fan-out

  /** The events callActionListeners delivers: one per registered listener,
      in registration order, each carrying the command. */
  function Fanout(listeners: seq<nat>, command: string): (events: seq<(nat, string)>)
    ensures |events| == |listeners|
    ensures forall i :: 0 <= i < |listeners| ==> events[i] == (listeners[i], command)
  {
    if listeners == [] then [] else [(listeners[0], command)] + Fanout(listeners[1..], command)
  }

  function Receivers(events: seq<(nat, string)>): seq<nat>
  {
    if events == [] then [] else [events[0].0] + Receivers(events[1..])
  }

  /** Each listener is called exactly as often as it was registered: a
      listener added twice hears the command twice. */
  lemma {:induction false} FanoutCallsEachOnce(listeners: seq<nat>, command: string)
    ensures Receivers(Fanout(listeners, command)) == listeners
    ensures multiset(Receivers(Fanout(listeners, command))) == multiset(listeners)
  {
    if listeners != [] {
      FanoutCallsEachOnce(listeners[1..], command);
      assert [listeners[0]] + listeners[1..] == listeners;
    }
  }

  /** Fanning out to the listeners of two registrations, one after the other,
      is fanning out to both lists in turn. */
  lemma {:induction false} FanoutAppend(a: seq<nat>, b: seq<nat>, command: string)
    ensures Fanout(a + b, command) == Fanout(a, command) + Fanout(b, command)
  {
    if a != [] {
      var head := [(a[0], command)];
      assert (a + b)[1..] == a[1..] + b;
      assert Fanout(a + b, command) == head + Fanout(a[1..] + b, command);
      FanoutAppend(a[1..], b, command);
      assert head + (Fanout(a[1..], command) + Fanout(b, command)) ==
        (head + Fanout(a[1..], command)) + Fanout(b, command);
    }
  }

  // ---------------------------------------------------------------------
  // The panel object

  class PreferencesPanel {
    /** Whether UserPreferences.getInstance() gave an object (it gives null
        when config.properties cannot be loaded). */
    const hasPrefs: bool
    var listeners: seq<nat>
    /** The SaveLocation property. */
    var saveLocation: Option<string>
    /** The save location last written to config.properties. */
    var stored: Option<string>
    var visible: bool
    /** Every event delivered to a listener, in order. */
    var delivered: seq<(nat, string)>

    /** getPanel: a fresh panel, shown, with no listeners. */
    constructor(hasPrefs: bool, saveLocation: Option<string>)
      ensures this.hasPrefs == hasPrefs && this.saveLocation == saveLocation
      ensures listeners == [] && stored.None? && visible && delivered == []
    {
      this.hasPrefs := hasPrefs;
      this.saveLocation := saveLocation;
      listeners, stored, visible, delivered := [], None, true, [];
    }

    /** addActionListener: appended, duplicates kept. */
    method AddActionListener(l: nat)
      modifies this
      ensures listeners == old(listeners) + [l]
      ensures saveLocation == old(saveLocation) && stored == old(stored)
      ensures visible == old(visible) && delivered == old(delivered)
    {
      listeners := listeners + [l];
    }

    /** callActionListeners: every listener in turn, proved against Fanout. */
    method CallActionListeners(command: string)
      modifies this
      ensures delivered == old(delivered) + Fanout(listeners, command)
      ensures listeners == old(listeners) && saveLocation == old(saveLocation)
      ensures stored == old(stored) && visible == old(visible)
    {
      var i := 0;
      while i < |listeners|
        invariant 0 <= i <= |listeners|
        invariant delivered == old(delivered) + Fanout(listeners[..i], command)
        invariant listeners == old(listeners) && saveLocation == old(saveLocation)
        invariant stored == old(stored) && visible == old(visible)
      {
        FanoutAppend(listeners[..i], [listeners[i]], command);
        assert listeners[..i + 1] == listeners[..i] + [listeners[i]];
        delivered := delivered + [(listeners[i], command)];
        i := i + 1;
      }
      assert listeners[..i] == listeners;
    }

    /** The Save button. Empty text raises at charAt and a missing
        preferences object at setProperty: then nothing changes. Otherwise
        the location is set, stored when storeOk (a failed store only shows
        a message), the frame hidden, and "Saved" sent to every listener. */
    method Save(text: string, sep: char, storeOk: bool)
      modifies this
      ensures var loc := NormalizeLocation(text, sep);
        if loc.None? || !hasPrefs then
          saveLocation == old(saveLocation) && stored == old(stored) &&
          visible == old(visible) && delivered == old(delivered)
        else
          saveLocation == loc && stored == (if storeOk then loc else old(stored)) &&
          !visible && delivered == old(delivered) + Fanout(listeners, SAVED)
      ensures listeners == old(listeners)
    {
      var loc := NormalizeLocation(text, sep);
      if loc.Some? && hasPrefs {
        saveLocation := loc;
        if storeOk {
          stored := loc;
        }
        visible := false;
        CallActionListeners(SAVED);
      }
    }

    /** reopen */
    method Reopen()
      modifies this
      ensures visible
      ensures listeners == old(listeners) && saveLocation == old(saveLocation)
      ensures stored == old(stored) && delivered == old(delivered)
    {
      visible := true;
    }
  }
}
