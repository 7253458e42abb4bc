/** The terminal UI's logic: the command completer, the accumulation of a
    streamed response into a live-updated buffer, and the mapping of
    line-editor outcomes to what `get_user_input` gives its caller. */
module Ui {
  import opened Wrappers
  import opened Generators

  /** The completer's fixed command list, in its order. */
  const Commands: seq<string> := ["\\chat", "\\bye", "\\help"]

  /** A completion offer: the text to insert and where, relative to the
      cursor, the replaced text begins. */
  datatype Completion = Completion(text: string, startPosition: int)

  /** The candidates that start with `text`, in candidate order, each
      replacing the whole of `text`. */
  function Matching(candidates: seq<string>, text: string): (r: seq<Completion>)
    ensures |r| <= |candidates|
    ensures forall j :: 0 <= j < |r| ==> r[j].text in candidates && text <= r[j].text && r[j].startPosition == -|text|
    ensures forall k :: 0 <= k < |candidates| && text <= candidates[k] ==> Completion(candidates[k], -|text|) in r
  {
    if candidates == [] then []
    else
      var rest := Matching(candidates[1..], text);
      assert forall k :: 1 <= k < |candidates| ==> candidates[k] == candidates[1..][k - 1];
      if text <= candidates[0] then [Completion(candidates[0], -|text|)] + rest else rest
  }

  /** `CommandCompleter.get_completions`: nothing unless the line starts
      with a backslash and the cursor is at its end; then every command the
      line is a prefix of, an exact match included. */
  function GetCompletions(text: string, cursorPosition: int): (r: seq<Completion>)
    ensures !("\\" <= text && cursorPosition == |text|) ==> r == []
    ensures forall j :: 0 <= j < |r| ==> r[j].text in Commands && text <= r[j].text && r[j].startPosition == -|text|
    ensures "\\" <= text && cursorPosition == |text| ==>
      forall k :: 0 <= k < |Commands| && text <= Commands[k] ==> Completion(Commands[k], -|text|) in r
  {
    if "\\" <= text && cursorPosition == |text| then Matching(Commands, text) else []
  }

  /** Offers keep the order of the candidate list. */
  lemma {:induction false} MatchingAppend(a: seq<string>, b: seq<string>, text: string)
    ensures Matching(a + b, text) == Matching(a, text) + Matching(b, text)
  {
    if a == [] {
      assert a + b == b;
    } else {
      assert (a + b)[0] == a[0];
      assert (a + b)[1..] == a[1..] + b;
      MatchingAppend(a[1..], b, text);
    }
  }

  /** A lone backslash at the cursor offers all three commands, in order. */
  lemma BackslashOffersAll()
    ensures GetCompletions("\\", 1) == [Completion("\\chat", -1), Completion("\\bye", -1), Completion("\\help", -1)]
  {
  }

  /** "\ch" offers only "\chat". */
  lemma PartialOffersOne()
    ensures GetCompletions("\\ch", 3) == [Completion("\\chat", -3)]
  {
    assert "\\ch" <= "\\chat";
    assert "\\bye"[1] != "\\ch"[1] && "\\help"[1] != "\\ch"[1];
    assert Commands[1..][1..][1..] == [];
  }

  /** A complete command offers itself. */
  lemma ExactMatchOffersItself(k: nat)
    requires k < |Commands|
    ensures Completion(Commands[k], -|Commands[k]|) in GetCompletions(Commands[k], |Commands[k]|)
  {
  }

  const NoneChunkError: string := "\nError occurred during streaming."
  const StreamErrorPrefix: string := "\nError displaying streamed response: "

  /** What `display_streamed_response` shows: the successive buffer
      contents pushed to the live region, and whether the trailing blank
      line is printed after it closes. */
  datatype Rendering = Rendering(snapshots: seq<string>, trailingBlank: bool)

  /** The meaning of the display loop on the chunks it receives, starting
      from `buffer`; `raised` is the text of the exception that follows. */
  function RenderFrom(chunks: seq<Option<string>>, buffer: string, raised: Option<string>): (r: Rendering)
    ensures |r.snapshots| <= |chunks| + 1
    ensures !r.trailingBlank ==> |r.snapshots| > 0
  {
    if chunks == [] then
      if raised.Some? then Rendering([buffer + StreamErrorPrefix + raised.value], true) else Rendering([], true)
    else
      match chunks[0]
      case None => Rendering([buffer + NoneChunkError], false)
      case Some(c) =>
        var rest := RenderFrom(chunks[1..], buffer + c, raised);
        Rendering([buffer + c] + rest.snapshots, rest.trailingBlank)
  }

  /** The meaning of `display_streamed_response(content_generator)`. */
  function Render(g: Gen<Option<string>>): (r: Rendering)
    ensures |r.snapshots| <= |g.items| + 1
    ensures !r.trailingBlank ==> |r.snapshots| > 0
  {
    RenderFrom(g.items[..g.Delivered()], "", g.RaisedMessage())
  }

  /** `display_streamed_response`: appends each chunk to the buffer and
      pushes the buffer; a `None` chunk appends an error note and returns
      at once; an exception appends its own note and the display then ends
      normally. */
  method DisplayStreamedResponse(g: Gen<Option<string>>) returns (snapshots: seq<string>, trailingBlank: bool)
    ensures Rendering(snapshots, trailingBlank) == Render(g)
  {
    var chunks := g.items[..g.Delivered()];
    var raised := g.RaisedMessage();
    var markdownText := "";
    snapshots := [];
    var i := 0;
    while i < |chunks|
      invariant 0 <= i <= |chunks|
      invariant Render(g) == Rendering(snapshots + RenderFrom(chunks[i..], markdownText, raised).snapshots,
                                       RenderFrom(chunks[i..], markdownText, raised).trailingBlank)
    {
      assert chunks[i..][1..] == chunks[i + 1..];
      match chunks[i] {
        case Some(c) =>
          markdownText := markdownText + c;
          snapshots := snapshots + [markdownText];
        case None =>
          markdownText := markdownText + NoneChunkError;
          snapshots := snapshots + [markdownText];
          return snapshots, false;
      }
      i := i + 1;
    }
    if raised.Some? {
      markdownText := markdownText + StreamErrorPrefix + raised.value;
      snapshots := snapshots + [markdownText];
    }
    trailingBlank := true;
  }

  /** The concatenation of the contents of `chunks`. */
  function Text(chunks: seq<Option<string>>): string
  {
    if chunks == [] then "" else Text(chunks[..|chunks| - 1]) + (match chunks[|chunks| - 1] case Some(c) => c case None => "")
  }

  /** All chunks carry content. */
  predicate AllContent(chunks: seq<Option<string>>)
  {
    forall i :: 0 <= i < |chunks| ==> chunks[i].Some?
  }

  lemma AllContentTail(chunks: seq<Option<string>>, n: nat)
    requires 0 < n <= |chunks| && AllContent(chunks[..n])
    ensures chunks[0].Some? && AllContent(chunks[1..][..n - 1])
  {
    assert chunks[..n][0] == chunks[0];
    var tail := chunks[1..][..n - 1];
    forall i | 0 <= i < |tail| ensures tail[i].Some? {
      assert tail[i] == chunks[..n][i + 1];
    }
  }

  lemma {:induction false} TextCons(c: string, chunks: seq<Option<string>>)
    ensures Text([Some(c)] + chunks) == c + Text(chunks)
  {
    if chunks != [] {
      var init := chunks[..|chunks| - 1];
      assert ([Some(c)] + chunks)[..|chunks|] == [Some(c)] + init;
      TextCons(c, init);
    } else {
      assert Text([Some(c)]) == Text([]) + c;
    }
  }

  /** After the k-th chunk the buffer is the starting buffer followed by the
      first k chunks, as long as no `None` came before. */
  lemma {:induction false} RenderAccumulates(chunks: seq<Option<string>>, buffer: string, raised: Option<string>, k: nat)
    requires k < |chunks| && AllContent(chunks[..k + 1])
    ensures k < |RenderFrom(chunks, buffer, raised).snapshots|
    ensures RenderFrom(chunks, buffer, raised).snapshots[k] == buffer + Text(chunks[..k + 1])
  {
    AllContentTail(chunks, k + 1);
    var c := chunks[0].value;
    if k == 0 {
      assert chunks[..1] == [Some(c)];
      TextCons(c, []);
    } else {
      RenderAccumulates(chunks[1..], buffer + c, raised, k - 1);
      var rest := RenderFrom(chunks[1..], buffer + c, raised);
      assert RenderFrom(chunks, buffer, raised) == Rendering([buffer + c] + rest.snapshots, rest.trailingBlank);
      var head := chunks[1..][..k];
      assert chunks[..k + 1] == [Some(c)] + head;
      TextCons(c, head);
      assert RenderFrom(chunks, buffer, raised).snapshots[k] == rest.snapshots[k - 1];
      assert buffer + (c + Text(head)) == (buffer + c) + Text(head);
    }
  }

  /** The first `None` at position p ends the display: p accumulated
      snapshots, then the buffer with the error note, and no blank line. */
  lemma {:induction false} RenderStopsAtNone(chunks: seq<Option<string>>, buffer: string, raised: Option<string>, p: nat)
    requires p < |chunks| && chunks[p].None? && AllContent(chunks[..p])
    ensures |RenderFrom(chunks, buffer, raised).snapshots| == p + 1
    ensures RenderFrom(chunks, buffer, raised).snapshots[p] == buffer + Text(chunks[..p]) + NoneChunkError
    ensures !RenderFrom(chunks, buffer, raised).trailingBlank
  {
    if p == 0 {
      assert chunks[..0] == [];
    } else {
      AllContentTail(chunks, p);
      var c := chunks[0].value;
      RenderStopsAtNone(chunks[1..], buffer + c, raised, p - 1);
      var rest := RenderFrom(chunks[1..], buffer + c, raised);
      assert RenderFrom(chunks, buffer, raised) == Rendering([buffer + c] + rest.snapshots, rest.trailingBlank);
      var head := chunks[1..][..p - 1];
      assert chunks[..p] == [Some(c)] + head;
      TextCons(c, head);
      assert RenderFrom(chunks, buffer, raised).snapshots[p] == rest.snapshots[p - 1];
      assert buffer + (c + Text(head)) == (buffer + c) + Text(head);
    }
  }

  /** Without a `None`, the display shows one snapshot per chunk, then the
      exception's note if the generator raised, and prints the blank line. */
  lemma {:induction false} RenderCompletes(chunks: seq<Option<string>>, buffer: string, raised: Option<string>)
    requires AllContent(chunks)
    ensures |RenderFrom(chunks, buffer, raised).snapshots| == |chunks| + (if raised.Some? then 1 else 0)
    ensures raised.Some? ==> RenderFrom(chunks, buffer, raised).snapshots[|chunks|] == buffer + Text(chunks) + StreamErrorPrefix + raised.value
    ensures RenderFrom(chunks, buffer, raised).trailingBlank
  {
    if chunks != [] {
      var c := chunks[0].value;
      var tail := chunks[1..];
      assert AllContent(tail) by {
        forall i | 0 <= i < |tail| ensures tail[i].Some? {
          assert tail[i] == chunks[i + 1];
        }
      }
      RenderCompletes(tail, buffer + c, raised);
      var rest := RenderFrom(tail, buffer + c, raised);
      var r := RenderFrom(chunks, buffer, raised);
      assert r == Rendering([buffer + c] + rest.snapshots, rest.trailingBlank);
      if raised.Some? {
        assert chunks == [Some(c)] + tail;
        TextCons(c, tail);
        assert r.snapshots[|chunks|] == rest.snapshots[|tail|];
        assert buffer + Text(chunks) == (buffer + c) + Text(tail);
      }
    }
  }

  /** The trailing blank line is printed exactly when no `None` chunk
      arrives. */
  lemma {:induction false} TrailingBlankIff(chunks: seq<Option<string>>, buffer: string, raised: Option<string>)
    ensures RenderFrom(chunks, buffer, raised).trailingBlank <==> AllContent(chunks)
  {
    if chunks != [] {
      TrailingBlankIff(chunks[1..], buffer + (if chunks[0].Some? then chunks[0].value else ""), raised);
      if chunks[0].Some? {
        assert AllContent(chunks) <==> AllContent(chunks[1..]) by {
          assert forall i :: 0 < i < |chunks| ==> chunks[i] == chunks[1..][i - 1];
        }
      }
    }
  }

  /** Each live update shows an extension of the previous one. */
  lemma {:induction false} SnapshotsGrow(chunks: seq<Option<string>>, buffer: string, raised: Option<string>)
    ensures forall k :: 0 <= k < |RenderFrom(chunks, buffer, raised).snapshots| ==> buffer <= RenderFrom(chunks, buffer, raised).snapshots[k]
    ensures forall k :: 0 <= k < |RenderFrom(chunks, buffer, raised).snapshots| - 1 ==>
      RenderFrom(chunks, buffer, raised).snapshots[k] <= RenderFrom(chunks, buffer, raised).snapshots[k + 1]
  {
    if chunks != [] && chunks[0].Some? {
      var c := chunks[0].value;
      SnapshotsGrow(chunks[1..], buffer + c, raised);
      var rest := RenderFrom(chunks[1..], buffer + c, raised).snapshots;
      forall k | 0 <= k < |rest| ensures buffer <= rest[k] {
        assert buffer <= buffer + c;
      }
    }
  }

  /** What `session.prompt` does: return a line, or raise on Ctrl+C
      (KeyboardInterrupt) or Ctrl+D (EOFError). */
  datatype PromptOutcome = Entered(line: string) | CtrlC | CtrlD

  /** What a call of `ui.get_user_input()` does, as its caller sees it:
      return a line, raise KeyboardInterrupt, or raise EOFError. */
  datatype ReadEvent = Line(text: string) | Interrupt | Eof

  /** `get_user_input`: the typed line unchanged, "" on Ctrl+C; EOFError
      passes through. It never raises KeyboardInterrupt itself. */
  function GetUserInput(p: PromptOutcome): (r: ReadEvent)
    ensures r != Interrupt
    ensures r == Eof <==> p == CtrlD
    ensures p.Entered? ==> r == Line(p.line)
    ensures p == CtrlC ==> r == Line("")
  {
    match p
    case Entered(line) => Line(line)
    case CtrlC => Line("")
    case CtrlD => Eof
  }
}
