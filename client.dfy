/** The completion client: refuses to exist without a valid configuration,
    and turns one user utterance into a streamed request whose text
    fragments it passes on, swallowing any provider failure after printing
    one diagnostic. The provider's response is an input: a generator of
    chunks (see Generators). */
module Client {
  import opened Wrappers
  import opened Generators
  import Configuration

  const InvalidConfigMessage: string := "Invalid configuration. Please set the OPENAI_API_KEY environment variable."
  const SystemPrompt: string := "You are a helpful assistant."
  const DiagnosticPrefix: string := "Error getting completion: "
  /** The text of the IndexError raised by `choices[0]` on an empty list. */
  const IndexErrorMessage: string := "list index out of range"

  datatype Role = System | User
  datatype Message = Message(role: Role, content: string)
  /** The arguments of one `chat.completions.create` call. */
  datatype Request = Request(model: string, messages: seq<Message>, stream: bool)
  /** The arguments the provider client is built from. */
  datatype ProviderClient = ProviderClient(apiKey: string, baseUrl: string)

  /** One streamed chunk: the delta content of its first choice, or a chunk
      whose `choices` list is empty. */
  datatype Chunk = Delta(content: Option<string>) | NoChoices

  /** What consuming a response produces: the yielded fragments and the
      lines printed. */
  datatype Completed = Completed(fragments: seq<string>, printed: seq<string>)

  /** The meaning of `get_completion` on the chunks a consumer receives,
      `raised` being the text of the exception that follows them, if any. */
  function Consume(chunks: seq<Chunk>, raised: Option<string>): (r: Completed)
    ensures |r.fragments| <= |chunks|
    ensures |r.printed| <= 1
  {
    if chunks == [] then
      Completed([], if raised.Some? then [DiagnosticPrefix + raised.value] else [])
    else
      match chunks[0]
      case NoChoices => Completed([], [DiagnosticPrefix + IndexErrorMessage])
      case Delta(None) => Consume(chunks[1..], raised)
      case Delta(Some(s)) =>
        var rest := Consume(chunks[1..], raised);
        Completed([s] + rest.fragments, rest.printed)
  }

  /** The meaning of `get_completion` on a whole provider response. */
  function Completion(response: Gen<Chunk>): (r: Completed)
    ensures |r.fragments| <= |response.items|
    ensures r.printed == [] <==> WellFormed(response.items[..response.Delivered()]) && response.raises.None?
  {
    ConsumePrints(response.items[..response.Delivered()], response.RaisedMessage());
    Consume(response.items[..response.Delivered()], response.RaisedMessage())
  }

  /** No chunk in `chunks` lacks choices. */
  predicate WellFormed(chunks: seq<Chunk>)
  {
    forall i :: 0 <= i < |chunks| ==> chunks[i].Delta?
  }

  class LLMClient {
    const provider: ProviderClient
    const model: string

    /** The field assignments of `LLMClient.__init__`, reached only once
        the configuration has passed its check (see NewLLMClient). */
    constructor (config: Configuration.Config)
      requires Configuration.Validate(config)
      ensures provider == ProviderClient(config.apiKey.value, config.baseUrl)
      ensures model == config.model
    {
      provider := ProviderClient(config.apiKey.value, config.baseUrl);
      model := config.model;
    }

    /** `get_completion(content)` run to the end against `response`: the one
        request it issues, the fragments it yields and what it prints. */
    method GetCompletion(content: string, response: Gen<Chunk>)
      returns (request: Request, fragments: seq<string>, printed: seq<string>)
      ensures request == Request(model, [Message(System, SystemPrompt), Message(User, content)], true)
      ensures Completed(fragments, printed) == Completion(response)
    {
      request := Request(model, [Message(System, SystemPrompt), Message(User, content)], true);
      var chunks := response.items[..response.Delivered()];
      var raised := response.RaisedMessage();
      assert Completion(response) == Consume(chunks, raised);
      fragments, printed := [], [];
      var i := 0;
      while i < |chunks|
        invariant 0 <= i <= |chunks|
        invariant printed == []
        invariant Consume(chunks, raised) == Completed(fragments + Consume(chunks[i..], raised).fragments, Consume(chunks[i..], raised).printed)
      {
        assert chunks[i..][1..] == chunks[i + 1..];
        ghost var rest := Consume(chunks[i + 1..], raised);
        match chunks[i] {
          case NoChoices =>
            printed := [DiagnosticPrefix + IndexErrorMessage];
            return;
          case Delta(c) =>
            if c.Some? {
              assert Consume(chunks[i..], raised) == Completed([c.value] + rest.fragments, rest.printed);
              assert fragments + ([c.value] + rest.fragments) == (fragments + [c.value]) + rest.fragments;
              fragments := fragments + [c.value];
            } else {
              assert Consume(chunks[i..], raised) == rest;
            }
        }
        i := i + 1;
      }
      assert chunks[i..] == [];
      if raised.Some? {
        printed := [DiagnosticPrefix + raised.value];
      }
    }
  }

  /** `LLMClient()`: refused with a ValueError when the configuration is
      invalid, before any provider client exists; otherwise a client built
      from the configuration's key, URL and model. */
  method NewLLMClient(config: Configuration.Config) returns (r: Result<LLMClient, string>)
    ensures r.Failure? <==> !Configuration.Validate(config)
    ensures r.Failure? ==> r.error == InvalidConfigMessage
    ensures r.Success? ==> fresh(r.value)
    ensures r.Success? ==> r.value.provider == ProviderClient(config.apiKey.value, config.baseUrl)
    ensures r.Success? ==> r.value.model == config.model
  {
    if !Configuration.Validate(config) {
      return Failure(InvalidConfigMessage);
    }
    var client := new LLMClient(config);
    return Success(client);
  }

  /** A diagnostic is printed exactly when the iteration faults: a chunk
      without choices, or an exception after the delivered chunks. */
  lemma {:induction false} ConsumePrints(chunks: seq<Chunk>, raised: Option<string>)
    ensures Consume(chunks, raised).printed == [] <==> WellFormed(chunks) && raised.None?
    ensures WellFormed(chunks) && raised.Some? ==> Consume(chunks, raised).printed == [DiagnosticPrefix + raised.value]
  {
    if chunks != [] {
      ConsumePrints(chunks[1..], raised);
      if chunks[0].Delta? {
        assert WellFormed(chunks) <==> WellFormed(chunks[1..]) by {
          assert forall i :: 0 < i < |chunks| ==> chunks[i] == chunks[1..][i - 1];
        }
      }
    }
  }

  /** Fragments keep arrival order: consuming `a` then `b` yields what `a`
      yields followed by what `b` yields, when nothing in `a` faults. */
  lemma {:induction false} ConsumeAppend(a: seq<Chunk>, b: seq<Chunk>, raised: Option<string>)
    requires WellFormed(a)
    ensures Consume(a + b, raised) == Completed(Consume(a, None).fragments + Consume(b, raised).fragments, Consume(b, raised).printed)
  {
    if a != [] {
      assert (a + b)[1..] == a[1..] + b;
      assert WellFormed(a[1..]) by {
        assert forall i :: 0 <= i < |a[1..]| ==> a[1..][i] == a[i + 1];
      }
      ConsumeAppend(a[1..], b, raised);
      assert (a + b)[0] == a[0];
      assert a[0].Delta?;
      var rest := Consume(a[1..] + b, raised);
      if a[0].content.Some? {
        var s := a[0].content.value;
        assert Consume(a + b, raised) == Completed([s] + rest.fragments, rest.printed);
        assert Consume(a, None).fragments == [s] + Consume(a[1..], None).fragments;
      } else {
        assert Consume(a + b, raised) == rest;
        assert Consume(a, None) == Consume(a[1..], None);
      }
    } else {
      assert a + b == b;
    }
  }

  /** Every fragment is the content of a received chunk, and without a
      fault every non-`None` content — the empty string included — is
      yielded. */
  lemma {:induction false} ConsumeContents(chunks: seq<Chunk>, raised: Option<string>)
    ensures forall f :: f in Consume(chunks, raised).fragments ==> Delta(Some(f)) in chunks
    ensures WellFormed(chunks) ==> forall i :: 0 <= i < |chunks| && chunks[i].content.Some? ==> chunks[i].content.value in Consume(chunks, raised).fragments
  {
    if chunks != [] {
      ConsumeContents(chunks[1..], raised);
      if WellFormed(chunks) {
        assert WellFormed(chunks[1..]) by {
          assert forall i :: 0 <= i < |chunks[1..]| ==> chunks[1..][i] == chunks[i + 1];
        }
        forall i | 0 <= i < |chunks| && chunks[i].content.Some?
          ensures chunks[i].content.value in Consume(chunks, raised).fragments
        {
          if i > 0 {
            assert chunks[i] == chunks[1..][i - 1];
          }
        }
      }
    }
  }

  /** The non-`None` delta contents of `chunks`, in order: the reference
      for what `get_completion` yields. */
  function Filter(chunks: seq<Chunk>): seq<string>
  {
    if chunks == [] then []
    else (if chunks[0].Delta? && chunks[0].content.Some? then [chunks[0].content.value] else []) + Filter(chunks[1..])
  }

  /** Whatever exception follows them, well-formed chunks yield exactly
      their non-`None` contents, in arrival order. */
  lemma {:induction false} ConsumeIsFilter(chunks: seq<Chunk>, raised: Option<string>)
    requires WellFormed(chunks)
    ensures Consume(chunks, raised).fragments == Filter(chunks)
  {
    if chunks != [] {
      assert WellFormed(chunks[1..]) by {
        assert forall i :: 0 <= i < |chunks[1..]| ==> chunks[1..][i] == chunks[i + 1];
      }
      ConsumeIsFilter(chunks[1..], raised);
      assert chunks[0].Delta?;
    }
  }

  /** A failure ends the sequence: whatever the provider would have sent
      after the failure point contributes nothing and prints nothing more. */
  lemma FailureEndsStream(items: seq<Chunk>, tail: seq<Chunk>, k: nat, message: string)
    requires k <= |items|
    ensures Completion(Gen(items[..k] + tail, Some(Raised(k, message))))
         == Completion(Gen(items[..k], Some(Raised(k, message))))
  {
    assert (items[..k] + tail)[..k] == items[..k];
    assert items[..k][..k] == items[..k];
  }

  /** The case of a three-chunk stream whose last delta is `None`. */
  lemma HelloWorld()
    ensures Completion(Gen([Delta(Some("Hello")), Delta(Some(" World")), Delta(None)], None))
         == Completed(["Hello", " World"], [])
  {
  }

  /** A failure raised by the request itself yields nothing and prints one
      diagnostic carrying the exception's text. */
  lemma FailureAtRequest(items: seq<Chunk>, message: string)
    ensures Completion(Gen(items, Some(Raised(0, message)))) == Completed([], [DiagnosticPrefix + message])
  {
  }
}
