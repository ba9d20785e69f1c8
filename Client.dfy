/**
 * The browser side: the submit handler that trims the form fields and
 * refuses an empty message before posting, and the rendering of the entry
 * list with both user-supplied fields escaped.
 */
module Client {
  import opened Wrappers
  import opened Text
  import opened Guestbook
  import opened HtmlEscape

  /** The JSON object the form posts: both keys are always present. */
  datatype Payload = Payload(name: string, message: string)

  /** The request the server receives for a payload. */
  function AsRequest(p: Payload): Request {
    Request(Some(p.name), Some(p.message))
  }

  const EmptyMessageAlert: string := "Message cannot be empty"
  const FallbackAlert: string := "Failed to post"

  /** The trimmed field values, or None (nothing is sent) when the trimmed message is empty. */
  function BuildPayload(nameValue: string, messageValue: string): (p: Option<Payload>)
    ensures p.None? <==> AllIn(messageValue, JsWhitespace)
    ensures p.Some? ==> p.value.message != [] && p.value.message == Strip(messageValue, JsWhitespace)
    ensures p.Some? ==> p.value.name == Strip(nameValue, JsWhitespace)
  {
    var payload := Payload(Strip(nameValue, JsWhitespace), Strip(messageValue, JsWhitespace));
    if payload.message == [] then None else Some(payload)
  }

  /** How the POST came back: res.ok, or a failure whose JSON body may carry an `error` text. */
  datatype Reply = Ok | NotOk(error: Option<string>)

  /** `err.error || 'Failed to post'`: an absent or empty error text falls back to the generic alert. */
  function FailureAlert(error: Option<string>): (text: string)
    ensures text != []
    ensures error.Some? && error.value != [] ==> text == error.value
    ensures error.None? || error.value == [] ==> text == FallbackAlert
  {
    if error.Some? && error.value != [] then error.value else FallbackAlert
  }

  /** The form with its two input fields. */
  class EntryForm {
    var nameValue: string
    var messageValue: string

    constructor (name: string, message: string)
      ensures nameValue == name && messageValue == message
    {
      nameValue, messageValue := name, message;
    }

    /**
     * The submit handler, with the server's reply as a parameter. An empty
     * trimmed message is alerted and nothing is sent; an accepted post
     * clears both fields; a refused one alerts and keeps them. The fields
     * themselves are never trimmed in place.
     */
    method Submit(reply: Reply) returns (sent: Option<Payload>, alert: Option<string>)
      modifies this
      ensures sent == BuildPayload(old(nameValue), old(messageValue))
      ensures sent.None? ==>
        alert == Some(EmptyMessageAlert) && nameValue == old(nameValue) && messageValue == old(messageValue)
      ensures sent.Some? && reply.Ok? ==> alert == None && nameValue == "" && messageValue == ""
      ensures sent.Some? && reply.NotOk? ==>
        alert == Some(FailureAlert(reply.error)) && nameValue == old(nameValue) && messageValue == old(messageValue)
    {
      sent := BuildPayload(nameValue, messageValue);
      if sent.None? {
        return sent, Some(EmptyMessageAlert);
      }
      match reply
      case Ok =>
        messageValue := "";
        nameValue := "";
        alert := None;
      case NotOk(error) =>
        alert := Some(FailureAlert(error));
    }
  }

  /**
   * What the form sends is what the server stores, unless a field contains
   * whitespace that only Python strips: the server then trims no further,
   * accepts the message and keeps the name as sent (never "Anonymous", since
   * the key is always present).
   */
  lemma {:induction false} PayloadStoredAsSent(nameValue: string, messageValue: string)
    requires BuildPayload(nameValue, messageValue).Some?
    requires forall k :: 0 <= k < |nameValue| ==> nameValue[k] !in PythonOnlyWhitespace
    requires forall k :: 0 <= k < |messageValue| ==> messageValue[k] !in PythonOnlyWhitespace
    ensures var p := BuildPayload(nameValue, messageValue).value;
      Validate(AsRequest(p)) == Success(Submission(p.name, p.message))
  {
    var p := BuildPayload(nameValue, messageValue).value;
    JsTrimmedIsPythonTrimmed(nameValue);
    JsTrimmedIsPythonTrimmed(messageValue);
    StripTrimmed(p.name, PythonWhitespace);
    StripTrimmed(p.message, PythonWhitespace);
  }

  /** A JavaScript-trimmed string has no Python whitespace at its ends when s has no Python-only whitespace. */
  lemma {:induction false} JsTrimmedIsPythonTrimmed(s: string)
    requires forall k :: 0 <= k < |s| ==> s[k] !in PythonOnlyWhitespace
    ensures IsTrimmed(Strip(s, JsWhitespace), PythonWhitespace)
  {
    var t := Strip(s, JsWhitespace);
    if t != [] {
      var i := ContentStart(s, JsWhitespace);
      assert t[0] == s[i] && t[|t| - 1] == s[i + |t| - 1];
    }
  }

  /**
   * The two trims disagree: a message of one U+001C passes the form's check
   * (JavaScript does not strip it) and is refused by the server (Python does).
   */
  lemma {:induction false} InformationSeparatorRefused()
    ensures BuildPayload("", "\U{1C}") == Some(Payload("", "\U{1C}"))
    ensures Validate(AsRequest(Payload("", "\U{1C}"))) == Failure(MessageRequired)
  {
    StripTrimmed("\U{1C}", JsWhitespace);
    assert IsBlank("\U{1C}");
  }

  /** One `<li>` of the list. */
  datatype ListItem = ListItem(className: string, innerHtml: string)

  /** The single item shown for an empty list. */
  const Placeholder: ListItem := ListItem("", "No entries yet \U{2014} be the first!")

  // The fixed text of an entry's item, around the escaped name, the date text and the escaped message.
  const ItemOpen: string := "\n      <small>"
  const ItemSeparator: string := " \U{B7} "
  const ItemMiddle: string := "</small>\n      <div>"
  const ItemClose: string := "</div>\n    "

  /** The inner HTML of an entry's item; `when` is the browser's local rendering of createdAt. */
  function EntryHtml(e: Entry, when: string): string {
    ItemOpen + EscapeHtml(e.name) + ItemSeparator + when + ItemMiddle + EscapeHtml(e.message) + ItemClose
  }

  function EntryItem(e: Entry, localTime: string -> string): ListItem {
    ListItem("entry", EntryHtml(e, localTime(e.createdAt)))
  }

  /**
   * The `<` in an entry's markup are those of the fixed template and those
   * of the locale date text: neither the name nor the message can open a tag.
   */
  lemma {:induction false} EntryHtmlTags(e: Entry, when: string)
    ensures multiset(EntryHtml(e, when))['<'] ==
      multiset(ItemOpen + ItemSeparator + ItemMiddle + ItemClose)['<'] + multiset(when)['<']
  {
    NoOpeningBracket(e.name);
    NoOpeningBracket(e.message);
    CountSeven(ItemOpen, EscapeHtml(e.name), ItemSeparator, when, ItemMiddle, EscapeHtml(e.message), ItemClose);
    CountFour(ItemOpen, ItemSeparator, ItemMiddle, ItemClose);
  }

  lemma {:induction false} CountSeven(a: string, b: string, c: string, d: string, e: string, f: string, g: string)
    ensures multiset(a + b + c + d + e + f + g)['<'] ==
      multiset(a)['<'] + multiset(b)['<'] + multiset(c)['<'] + multiset(d)['<'] +
      multiset(e)['<'] + multiset(f)['<'] + multiset(g)['<']
  {
  }

  lemma {:induction false} CountFour(a: string, b: string, c: string, d: string)
    ensures multiset(a + b + c + d)['<'] == multiset(a)['<'] + multiset(b)['<'] + multiset(c)['<'] + multiset(d)['<']
  {
  }

  /** The list element the entries are rendered into. */
  class EntryList {
    var items: seq<ListItem>

    constructor ()
      ensures items == []
    {
      items := [];
    }

    /**
     * renderEntries: clears the list, then shows the placeholder for no
     * entries, or one item per entry in the given order, each built from
     * the escaped name, the local time and the escaped message.
     */
    method RenderEntries(entries: seq<Entry>, localTime: string -> string)
      modifies this
      ensures entries == [] ==> items == [Placeholder]
      ensures entries != [] ==> |items| == |entries|
      ensures forall k :: 0 <= k < |entries| ==> items[k] == EntryItem(entries[k], localTime)
    {
      items := [];
      if |entries| == 0 {
        items := [Placeholder];
        return;
      }
      for i := 0 to |entries|
        invariant |items| == i
        invariant forall k :: 0 <= k < i ==> items[k] == EntryItem(entries[k], localTime)
      {
        items := items + [EntryItem(entries[i], localTime)];
      }
    }
  }
}
