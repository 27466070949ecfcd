/** The part of the chat endpoint that is the system's own logic: turning
    the agent's final reply into plain answer text, and turning any failure
    of the handler into one fixed HTTP 500 response. */
module Chat {
  import opened Wrappers

  /** A value found in a content part's dictionary: a string, or anything
      else (number, list, null, ...), kept only as its rendering. */
  datatype Value = Str(s: string) | NonStr(rendering: string)

  /** One element of a list-shaped reply: normally a dictionary such as
      `{"type": "text", "text": "..."}`, but a bare string may appear too. */
  datatype Part = DictPart(fields: map<string, Value>) | StrPart(s: string)

  /** A reply's content: a plain string or a list of parts. */
  datatype Content = TextContent(s: string) | ListContent(parts: seq<Part>)

  datatype Message = Message(content: Content)

  /** What the endpoint sends: the answer, or an HTTP error. */
  datatype Response = Answer(answer: string) | HttpError(status: int, detail: string)

  const GenericDetail := "An internal error occurred. Please try again."

  /** `part.get("type") == "text"`. */
  predicate IsTextPart(fields: map<string, Value>)
  {
    "type" in fields && fields["type"] == Str("text")
  }

  /** `part.get("text", "")`. */
  function TextField(fields: map<string, Value>): Value
  {
    if "text" in fields then fields["text"] else Str("")
  }

  /** The list comprehension over the parts: the text field of every
      text-typed part, in order; `None` when some part is not a dictionary,
      where `.get` raises. */
  function CollectTexts(parts: seq<Part>): (r: Option<seq<Value>>)
    ensures r.Some? ==> forall k :: 0 <= k < |parts| ==> parts[k].DictPart?
    ensures r.Some? ==> |r.value| <= |parts|
  {
    if parts == [] then Some([])
    else match parts[0]
      case StrPart(_) => None
      case DictPart(fields) =>
        var rest := CollectTexts(parts[1..]);
        if rest.None? then None
        else if IsTextPart(fields) then Some([TextField(fields)] + rest.value)
        else rest
  }

  /** `"".join(values)`; `None` when some value is not a string, where
      `join` raises. */
  function JoinStrings(values: seq<Value>): Option<string>
  {
    if values == [] then Some("")
    else if values[0].NonStr? then None
    else
      var rest := JoinStrings(values[1..]);
      if rest.None? then None else Some(values[0].s + rest.value)
  }

  /** The answer text of a reply, or `None` when computing it raises. A
      string reply is its own answer (`str` of a string); a list reply
      yields an answer only if every part is a dictionary. */
  function Normalise(content: Content): (r: Option<string>)
    ensures content.TextContent? ==> r == Some(content.s)
    ensures content.ListContent? && r.Some? ==>
      forall k :: 0 <= k < |content.parts| ==> content.parts[k].DictPart?
  {
    match content
    case TextContent(s) => Some(s)
    case ListContent(parts) =>
      var texts := CollectTexts(parts);
      if texts.None? then None else JoinStrings(texts.value)
  }

  /** The handler of the chat endpoint after the agent has run: `history` is
      the message list the agent returned, or `None` when invoking it raised
      (whatever the error). The answer comes from the last message. */
  function ChatEndpoint(history: Option<seq<Message>>): (r: Response)
    ensures r.HttpError? ==> r.status == 500 && r.detail == GenericDetail
    ensures r.Answer? <==>
      (history.Some? && history.value != [] && Normalise(history.value[|history.value| - 1].content).Some?)
  {
    if history.None? || history.value == [] then HttpError(500, GenericDetail)
    else
      var text := Normalise(history.value[|history.value| - 1].content);
      if text.None? then HttpError(500, GenericDetail) else Answer(text.value)
  }

  // ---------------------------------------------------------------------
  // Properties of the normalisation

  /** A part that makes no contribution: a dictionary that is not text-typed. */
  predicate Ignored(p: Part)
  {
    p.DictPart? && !IsTextPart(p.fields)
  }

  /** A part that can be normalised without raising: a dictionary whose
      text, if it is text-typed, is a string or missing. */
  predicate WellFormedPart(p: Part)
  {
    p.DictPart? && (IsTextPart(p.fields) ==> TextField(p.fields).Str?)
  }

  /** A list reply normalises without raising exactly when every part is
      well formed. */
  predicate WellFormed(parts: seq<Part>)
  {
    forall k :: 0 <= k < |parts| ==> WellFormedPart(parts[k])
  }

  /** The text a single well-formed part contributes. */
  function Contribution(p: Part): string
  {
    if p.DictPart? && IsTextPart(p.fields) && TextField(p.fields).Str? then TextField(p.fields).s else ""
  }

  /** Reference definition: the contributions of the parts, concatenated in
      order. */
  function Concatenated(parts: seq<Part>): string
  {
    if parts == [] then "" else Contribution(parts[0]) + Concatenated(parts[1..])
  }

  lemma WellFormedCons(parts: seq<Part>)
    requires parts != []
    ensures WellFormed(parts) <==> WellFormedPart(parts[0]) && WellFormed(parts[1..])
  {
    if WellFormedPart(parts[0]) && WellFormed(parts[1..]) {
      forall k | 0 <= k < |parts| ensures WellFormedPart(parts[k]) {
        if k > 0 { assert parts[k] == parts[1..][k - 1]; }
      }
    }
  }

  /** The normalised text of a list reply is defined exactly for well-formed
      part lists, and is then the in-order concatenation of the text parts'
      texts; an empty list gives the empty string. */
  lemma {:induction false} NormaliseList(parts: seq<Part>)
    ensures Normalise(ListContent(parts)).Some? <==> WellFormed(parts)
    ensures WellFormed(parts) ==> Normalise(ListContent(parts)) == Some(Concatenated(parts))
    ensures Normalise(ListContent([])) == Some("")
  {
    if parts != [] {
      var p, rest := parts[0], parts[1..];
      NormaliseList(rest);
      WellFormedCons(parts);
      var texts := CollectTexts(rest);
      if texts.Some? && p.DictPart? && IsTextPart(p.fields) {
        var v := TextField(p.fields);
        assert ([v] + texts.value)[0] == v;
        assert ([v] + texts.value)[1..] == texts.value;
        if v.Str? && WellFormed(rest) {
          assert Normalise(ListContent(parts)) == Some(v.s + Concatenated(rest));
        }
      } else if p.DictPart? && !IsTextPart(p.fields) {
        assert Contribution(p) == "";
        assert Concatenated(parts) == Concatenated(rest);
      }
    }
  }

  /** Concatenation of part lists concatenates the answers. */
  lemma {:induction false} ConcatenatedAppend(a: seq<Part>, b: seq<Part>)
    ensures Concatenated(a + b) == Concatenated(a) + Concatenated(b)
  {
    if a == [] {
      assert a + b == b;
    } else {
      assert (a + b)[0] == a[0];
      assert (a + b)[1..] == a[1..] + b;
      ConcatenatedAppend(a[1..], b);
      calc {
        Concatenated(a + b);
        Contribution(a[0]) + Concatenated(a[1..] + b);
        Contribution(a[0]) + (Concatenated(a[1..]) + Concatenated(b));
        (Contribution(a[0]) + Concatenated(a[1..])) + Concatenated(b);
      }
    }
  }

  /** Inserting a part that is not text-typed anywhere in a list leaves the
      outcome unchanged, and so does inserting a text part whose "text" key
      is missing: the same answer when the list normalises, and a failure
      when it does not. */
  lemma NonTextPartContributesNothing(a: seq<Part>, p: Part, b: seq<Part>)
    requires Ignored(p) || (p.DictPart? && IsTextPart(p.fields) && "text" !in p.fields)
    ensures Normalise(ListContent(a + [p] + b)) == Normalise(ListContent(a + b))
  {
    WellFormedInsert(a, p, b);
    NormaliseList(a + [p] + b);
    NormaliseList(a + b);
    if WellFormed(a + b) {
      ConcatenatedAppend(a + [p], b);
      ConcatenatedAppend(a, [p]);
      ConcatenatedAppend(a, b);
      assert Concatenated([p]) == "" by {
        assert [p][1..] == [];
      }
      calc {
        Concatenated(a + [p] + b);
        Concatenated(a + [p]) + Concatenated(b);
        Concatenated(a) + Concatenated([p]) + Concatenated(b);
        Concatenated(a + b);
      }
    }
  }

  /** Inserting a well-formed part keeps a list well formed, and removing
      it again keeps it well formed too. */
  lemma WellFormedInsert(a: seq<Part>, p: Part, b: seq<Part>)
    requires WellFormedPart(p)
    ensures WellFormed(a + [p] + b) <==> WellFormed(a + b)
  {
    var ins := a + [p] + b;
    if WellFormed(a + b) {
      forall k | 0 <= k < |ins| ensures WellFormedPart(ins[k]) {
        if k < |a| {
          assert ins[k] == (a + b)[k];
        } else if k > |a| {
          assert ins[k] == (a + b)[k - 1];
        }
      }
    }
    if WellFormed(ins) {
      forall k | 0 <= k < |a + b| ensures WellFormedPart((a + b)[k]) {
        if k < |a| {
          assert (a + b)[k] == ins[k];
        } else {
          assert (a + b)[k] == ins[k + 1];
        }
      }
    }
  }

  /** Only the last message of the history decides the response. */
  lemma AnswerFromLastMessage(earlier: seq<Message>, last: Message)
    ensures ChatEndpoint(Some(earlier + [last])) == ChatEndpoint(Some([last]))
    ensures ChatEndpoint(Some([last])).Answer? ==> Normalise(last.content) == Some(ChatEndpoint(Some([last])).answer)
  {
  }
}
