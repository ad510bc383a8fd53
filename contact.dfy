/**
 * The contact form: the validation run on submit and the status line, button
 * and field values it drives. The 1100 ms simulated round trip and the
 * 2500 ms status clearing are timers; each pending timer is counted, and
 * its expiry is a separate step.
 */
module Contact {
  import opened Text
  import opened Email

  const MinMessageLength: nat := 4
  const InvalidText: string := "Please enter a valid name, email, and message."
  const SendingText: string := "Sending…"
  const ThanksText: string := "Thanks! I’ll get back to you soon."

  /** The colour given to the status line; `Unset` until the first submit. */
  datatype Color = Unset | Tomato | SeaGreen

  /** The test in the submit handler, on the raw field values: each is
      trimmed, the name must be non-empty, the e-mail must contain a match of
      `\S+@\S+\.\S+`, and the message must have at least four characters. */
  predicate Accepts(name: string, email: string, message: string) {
    Trim(name) != [] && HasEmailShape(Trim(email)) && |Trim(message)| >= MinMessageLength
  }

  /** The same test stated without trimming where trimming cannot matter:
      the name has a non-space character, and the raw e-mail matches the
      regular expression. */
  lemma AcceptsIff(name: string, email: string, message: string)
    ensures Accepts(name, email, message)
      <==> !AllSpace(name) && RegexMatches(email) && |Trim(message)| >= MinMessageLength
  {
    TrimEmptyIff(name);
    ShapeIgnoresTrim(email);
    ShapeIffRegex(email);
  }

  /** An empty name, an e-mail without '@' and a two-letter message are
      rejected; a plain name, address and sentence are accepted. */
  lemma Examples()
    ensures !Accepts("", "bad", "hi")
    ensures Accepts("Jo", "jo@x.com", "Hello there")
  {
    var name, email, message := "Jo", "jo@x.com", "Hello there";
    assert name[0] == 'J' && name[1] == 'o';
    TrimFixesTrimmed(name);
    assert email[0] == 'j' && email[7] == 'm';
    TrimFixesTrimmed(email);
    assert MatchesAround(email, 2, 4);
    assert message[0] == 'H' && message[10] == 'e';
    TrimFixesTrimmed(message);
  }

  class ContactForm {
    var name: string
    var email: string
    var message: string
    /** The text of the status line. */
    var status: string
    var color: Color
    /** The submit button's `disabled` property and `is-loading` class. */
    var buttonDisabled: bool
    var loading: bool
    /** Simulated round trips whose delay has not yet elapsed. */
    var pendingReplies: nat
    /** Scheduled clearings of the status line that have not yet run. */
    var pendingClears: nat

    /** A fresh page: empty fields and status, nothing pending. */
    constructor ()
      ensures name == "" && email == "" && message == ""
      ensures status == "" && color == Unset && !buttonDisabled && !loading
      ensures pendingReplies == 0 && pendingClears == 0
    {
      name, email, message := "", "", "";
      status, color := "", Unset;
      buttonDisabled, loading := false, false;
      pendingReplies, pendingClears := 0, 0;
    }

    /** The visitor types into the three fields. */
    method Edit(name: string, email: string, message: string)
      modifies this`name, this`email, this`message
      ensures this.name == name && this.email == email && this.message == message
    {
      this.name, this.email, this.message := name, email, message;
    }

    /** The submit handler up to its `await`. Rejected input sets the error
        text and colour and changes nothing else; accepted input disables the
        button, shows "Sending…" (keeping the previous colour) and starts a
        simulated round trip. */
    method Submit() returns (accepted: bool)
      modifies this`status, this`color, this`buttonDisabled, this`loading, this`pendingReplies
      ensures accepted == Accepts(name, email, message)
      ensures !accepted ==>
                status == InvalidText && color == Tomato
                && buttonDisabled == old(buttonDisabled) && loading == old(loading)
                && pendingReplies == old(pendingReplies)
      ensures accepted ==>
                status == SendingText && color == old(color)
                && buttonDisabled && loading && pendingReplies == old(pendingReplies) + 1
    {
      accepted := Accepts(name, email, message);
      if !accepted {
        status := InvalidText;
        color := Tomato;
        return;
      }
      buttonDisabled := true;
      status := SendingText;
      loading := true;
      pendingReplies := pendingReplies + 1;
    }

    /** The rest of the handler, once a round trip's delay has elapsed:
        re-enable the button, thank the visitor, reset the fields to their
        (empty) defaults and schedule the clearing of the status line. */
    method ReplyArrives()
      requires pendingReplies > 0
      modifies this
      ensures !buttonDisabled && !loading
      ensures status == ThanksText && color == SeaGreen
      ensures name == "" && email == "" && message == ""
      ensures pendingReplies == old(pendingReplies) - 1
      ensures pendingClears == old(pendingClears) + 1
    {
      buttonDisabled := false;
      loading := false;
      status := ThanksText;
      color := SeaGreen;
      name, email, message := "", "", "";
      pendingReplies := pendingReplies - 1;
      pendingClears := pendingClears + 1;
    }

    /** A scheduled clearing runs: it empties the status line whatever it
        shows at that moment, and changes nothing else. */
    method ClearTimerFires()
      requires pendingClears > 0
      modifies this`status, this`pendingClears
      ensures status == "" && pendingClears == old(pendingClears) - 1
    {
      status := "";
      pendingClears := pendingClears - 1;
    }
  }

  /** One visit that fills in the form and submits it, with every timer
      left to expire: the status lines shown in turn, and the field values
      at the end. Accepted input shows "Sending…", then the thanks, then an
      empty line, and leaves the fields empty; rejected input shows only the
      error and leaves the fields as typed. */
  method Submission(name: string, email: string, message: string)
    returns (statuses: seq<string>, fields: seq<string>)
    ensures Accepts(name, email, message) ==>
              statuses == [SendingText, ThanksText, ""] && fields == ["", "", ""]
    ensures !Accepts(name, email, message) ==>
              statuses == [InvalidText] && fields == [name, email, message]
  {
    var form := new ContactForm();
    form.Edit(name, email, message);
    var ok := form.Submit();
    statuses := [form.status];
    if ok {
      form.ReplyArrives();
      statuses := statuses + [form.status];
      form.ClearTimerFires();
      statuses := statuses + [form.status];
    }
    fields := [form.name, form.email, form.message];
  }
}
