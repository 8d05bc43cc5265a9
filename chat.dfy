/** The chat session: the transcript and the draft in the input box, and
    the guarded send (`handleSendMessage`, fe/src/page/dashbaord.tsx). */
module Chat {
  import opened Text

  /** The transcript (`messages`) and the draft (`currentMessage`). */
  datatype Session = Session(messages: seq<string>, draft: string)

  /** `handleSendMessage`: when the trimmed draft is not empty, append the
      draft as typed and reset it; otherwise do nothing. */
  function Send(s: Session): (r: Session)
    ensures s.messages <= r.messages && |r.messages| <= |s.messages| + 1
    ensures r.draft == s.draft || r.draft == ""
  {
    if Trim(s.draft) != "" then Session(s.messages + [s.draft], "") else s
  }

  /** No message of the transcript is blank. */
  predicate AllNonBlank(messages: seq<string>)
  {
    forall i :: 0 <= i < |messages| ==> !IsBlank(messages[i])
  }

  /** A blank draft is ignored; any other draft is appended untrimmed and the
      input is reset. Send changes the session exactly when the draft is not blank. */
  lemma SendGuard(s: Session)
    ensures IsBlank(s.draft) ==> Send(s) == s
    ensures !IsBlank(s.draft) ==> Send(s) == Session(s.messages + [s.draft], "")
    ensures Send(s) == s <==> IsBlank(s.draft)
  {
    TrimEmptyIffBlank(s.draft);
    if !IsBlank(s.draft) {
      assert |Send(s).messages| == |s.messages| + 1;
    }
  }

  /** A second send right after the first is a no-op. */
  lemma SendTwice(s: Session)
    ensures Send(Send(s)) == Send(s)
  {
    SendGuard(s);
    SendGuard(Send(s));
  }

  /** Send only ever adds non-blank messages. */
  lemma SendKeepsNonBlank(s: Session)
    requires AllNonBlank(s.messages)
    ensures AllNonBlank(Send(s).messages)
  {
    SendGuard(s);
  }

  /** "  " is ignored; "hello" is appended, the draft is reset, and sending again changes nothing. */
  lemma SendScenario(messages: seq<string>)
    ensures Send(Session(messages, "  ")) == Session(messages, "  ")
    ensures Send(Session(messages, "hello")) == Session(messages + ["hello"], "")
    ensures Send(Send(Session(messages, "hello"))) == Session(messages + ["hello"], "")
  {
    var blank, hello := Session(messages, "  "), Session(messages, "hello");
    assert IsBlank(blank.draft) by {
      assert forall i :: 0 <= i < |blank.draft| ==> blank.draft[i] == ' ';
    }
    SendGuard(blank);
    assert !IsBlank(hello.draft) by {
      assert !IsWhitespace(hello.draft[0]);
    }
    SendGuard(hello);
    SendTwice(hello);
  }
}
