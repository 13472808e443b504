/** What the requests of the drawer do. */
module OllamaRequests {
  // Start, cancel and refresh, stated on the tags, the shown states and the records.

  import opened Options
  import opened OllamaPullOutput
  import opened OllamaPull
  import opened OllamaOutcomes

  // ---------------------------------------------------------------------------------------------------
  // Tags
  // ---------------------------------------------------------------------------------------------------

  /** One to 128 letters, digits and the marks `.:_-/`. */
  predicate IsTag(tag: string) {
    0 < |tag| <= 128 && forall c <- tag ::
      'a' <= c <= 'z' || 'A' <= c <= 'Z' || '0' <= c <= '9' || c == '.' || c == ':' || c == '_' || c == '-' || c == '/'
  }

  lemma {:induction false} TagExactly(tag: string)
    ensures IsValidModelTag(tag) <==> IsTag(tag)
  {
  }

  /** The five models the drawer offers. */
  predicate IsOffered(tag: string) {
    tag == "llama3.1:8b" || tag == "qwen2.5-coder:7b" || tag == "deepseek-r1:7b" || tag == "mistral:7b"
    || tag == "gemma2:2b"
  }

  lemma {:induction false} OfferedExactly(tag: string)
    ensures tag in CURATED <==> IsOffered(tag)
    ensures IsOffered(tag) ==> IsTag(tag)
  {
    assert CURATED[0] == "llama3.1:8b" && CURATED[1] == "qwen2.5-coder:7b" && CURATED[2] == "deepseek-r1:7b";
    assert CURATED[3] == "mistral:7b" && CURATED[4] == "gemma2:2b";
  }

  // ---------------------------------------------------------------------------------------------------
  // Start
  // ---------------------------------------------------------------------------------------------------

  /** A request for another tag changes nothing about this one. */
  ghost predicate SameFor(c: Controller, d: Controller, tag: string) {
    && d.StateOf(tag) == c.StateOf(tag) && (tag in d.active <==> tag in c.active)
    && (tag in c.active ==> d.active[tag] == c.active[tag])
    && (tag in d.parsers <==> tag in c.parsers) && (tag in c.parsers ==> d.parsers[tag] == c.parsers[tag])
  }

  /**
   A start request: an invalid tag is refused with a message; a pull shown as under way is left alone; without a binary
   only a message is shown; a launch that fails leaves a message and no record; a launch that succeeds leaves a record
   of its process alone, nothing read yet, and is shown at zero.
   */
  lemma {:induction false} StartExactly(s: System, tag: string, launch: Launch)
    requires Enabled(s, Start(tag, launch))
    ensures
      var t := Next(s, Start(tag, launch));
      var shown, records := t.c.StateOf(tag), t.c.active == s.c.active && t.c.parsers == s.c.parsers;
      && (forall other :: other != tag ==> SameFor(s.c, t.c, other))
      && (!IsTag(tag) ==> shown == Failed("Invalid model tag") && records && t.procs == s.procs)
      && (IsTag(tag) && s.c.StateOf(tag).Pulling? ==> t == s)
      && (IsTag(tag) && !s.c.StateOf(tag).Pulling? && launch.NoBinary? ==>
            shown == Failed("ollama binary not found on PATH") && records && t.procs == s.procs)
      && (IsTag(tag) && !s.c.StateOf(tag).Pulling? && launch.RunFails? ==>
            shown == Failed("Failed to start: " + launch.error) && tag !in t.c.active && t.procs == s.procs)
      && (IsTag(tag) && !s.c.StateOf(tag).Pulling? && launch.Runs? ==>
            shown == Pulling(0.0) && tag in t.c.active && t.c.active[tag] == launch.pid
            && tag in t.c.parsers && t.c.parsers[tag] == Parser(0, None, false, false, None)
            && t.procs == s.procs[launch.pid := tag] && t.fed == s.fed[tag := []])
  {
    TagExactly(tag);
  }

  // ---------------------------------------------------------------------------------------------------
  // Output and cancellation
  // ---------------------------------------------------------------------------------------------------

  /** Lines delivered to a record are shown together with all before them; without a record they are dropped. */
  lemma {:induction false} DeliveredExactly(s: System, index: nat)
    requires Inv(s) && Enabled(s, Deliver(index))
    ensures
      var t, tag := Next(s, Deliver(index)), s.procs[s.pending[index].pid];
      && t.c.active == s.c.active && (forall other :: other != tag ==> SameFor(s.c, t.c, other))
      && (tag !in s.c.active ==> t.c == s.c)
      && (tag in s.c.active ==>
            && t.c.StateOf(tag) == FRESH.FeedAll(AllLines(t.fed[tag])).State()
            && AllLines(t.fed[tag]) == AllLines(s.fed[tag]) + s.pending[index].lines)
  {
    var tag, batch := s.procs[s.pending[index].pid], s.pending[index];
    DeliverKeepsInv(s, index);
    if tag in s.c.active {
      var fed := s.fed[tag] + [batch];
      assert fed[..|fed| - 1] == s.fed[tag];
      BatchesAreLines(fed);
    }
  }

  /** Cancelling drops the record, if there is one, and shows the tag as not pulled. */
  lemma {:induction false} CancelExactly(s: System, tag: string)
    ensures
      var t := Next(s, Cancel(tag));
      && (forall other :: other != tag ==> SameFor(s.c, t.c, other))
      && (tag !in s.c.active ==> t == s)
      && (tag in s.c.active ==> t.c.StateOf(tag) == NotPulled && tag !in t.c.active && tag !in t.c.parsers)
  {
  }

  // ---------------------------------------------------------------------------------------------------
  // Refresh
  // ---------------------------------------------------------------------------------------------------

  lemma {:induction false} RefreshedFrom(c: Controller, installed: map<string, string>, from: nat, tag: string)
    ensures
      var d := Refreshed(c, installed, from);
      d.StateOf(tag)
      == if (exists k :: from <= k < |CURATED| && CURATED[k] == tag) && tag in installed && !c.StateOf(tag).Pulling?
         then Pulled(Some(installed[tag])) else c.StateOf(tag)
    decreases |CURATED| - from
  {
    if from < |CURATED| {
      var here := CURATED[from];
      var d := if here in installed && !c.StateOf(here).Pulling?
               then c.(states := c.states[here := Pulled(Some(installed[here]))]) else c;
      RefreshedFrom(d, installed, from + 1, tag);
    }
  }

  /** A refresh shows the offered models that are installed, each with its digest, unless one is being pulled. */
  lemma {:induction false} RefreshExactly(s: System, installed: map<string, string>, tag: string)
    ensures
      var t := Next(s, Refresh(installed));
      && t.c.active == s.c.active && t.c.parsers == s.c.parsers
      && t.c.StateOf(tag) == if IsOffered(tag) && tag in installed && !s.c.StateOf(tag).Pulling?
                             then Pulled(Some(installed[tag])) else s.c.StateOf(tag)
  {
    RefreshTouchesStates(s.c, installed, 0);
    RefreshedFrom(s.c, installed, 0, tag);
    OfferedExactly(tag);
  }
}
