/**
 * The decisions the handlers make without touching storage: the sentiment
 * emoji and the chat reply built from it, the file-name classifier and the
 * reply to an uploaded document, and the `/websearch` command with its
 * result summary.  Everything an external service computes (polarity, the
 * generated text, whether an image decodes, the search response) is a
 * parameter.
 */
module Replies {
  import opened Wrappers
  import opened Text

  // ---------------------------------------------------------------------------
  // Sentiment emoji and the text-message reply

  const Smile: string := "\U{1F60A}"   // smiling face with smiling eyes
  const Angry: string := "\U{1F620}"   // angry face

  /** The emoji chosen from the sign of the polarity; exactly zero gets none. */
  function Emoji(polarity: real): (e: string)
    ensures e == Smile <==> polarity > 0.0
    ensures e == Angry <==> polarity < 0.0
    ensures e == "" <==> polarity == 0.0
  {
    if polarity > 0.0 then Smile else if polarity < 0.0 then Angry else ""
  }

  /** The reply to a text message: the generated text, one space, the emoji. */
  function ReplyText(response: string, emoji: string): (reply: string)
    ensures |reply| == |response| + 1 + |emoji|
    ensures reply[..|response|] == response && reply[|response|] == ' '
    ensures reply[|response| + 1..] == emoji
  {
    response + " " + emoji
  }

  /**
   * Reads a reply back into the generated text and the emoji: a trailing
   * space means no emoji, a trailing emoji after a space is the emoji.
   */
  function ParseReply(reply: string): Option<(string, string)>
  {
    if |reply| >= 1 && reply[|reply| - 1] == ' ' then
      Some((reply[..|reply| - 1], ""))
    else if |reply| >= 2 && reply[|reply| - 2] == ' ' && [reply[|reply| - 1]] in {Smile, Angry} then
      Some((reply[..|reply| - 2], [reply[|reply| - 1]]))
    else
      None
  }

  /** A reply determines the generated text and the emoji it was built from. */
  lemma ReplyRoundTrip(response: string, polarity: real)
    ensures ParseReply(ReplyText(response, Emoji(polarity))) == Some((response, Emoji(polarity)))
  {
    var reply := ReplyText(response, Emoji(polarity));
    if polarity == 0.0 {
      assert reply == response + [' '];
      assert reply[..|reply| - 1] == response;
    } else {
      var e := Emoji(polarity);
      assert |e| == 1;
      assert reply == response + [' '] + e;
      assert reply[|reply| - 1] == e[0] != ' ';
      assert [reply[|reply| - 1]] == e;
      assert reply[..|reply| - 2] == response;
    }
  }

  /**
   * The reply starts with the generated text followed by a space, and it ends
   * in a space exactly when the polarity is zero.
   */
  lemma ReplyShape(response: string, polarity: real)
    ensures var reply := ReplyText(response, Emoji(polarity));
      |reply| == |response| + 1 + |Emoji(polarity)| &&
      reply[..|response|] == response && reply[|response|] == ' ' &&
      reply[|response| + 1..] == Emoji(polarity) &&
      (reply[|reply| - 1] == ' ' <==> polarity == 0.0)
  {
    var reply := ReplyText(response, Emoji(polarity));
    assert reply[..|response|] == response;
    if polarity != 0.0 {
      assert reply[|reply| - 1] == Emoji(polarity)[0];
    }
  }

  // ---------------------------------------------------------------------------
  // Uploaded documents

  datatype FileKind = Image | Pdf | Unrecognized

  /** The outcome of a handler: a reply, no reply, or an exception that ends it. */
  datatype Reply = Sent(text: string) | NoReply | Raised

  const ImageAnalysis: string := "Image Analysis: This is an image file."
  const PdfAnalysis: string := "PDF Analysis: This is a PDF file."

  /** The image test of the classifier; every image suffix ends in 'g'. */
  function HasImageSuffix(name: string): (b: bool)
    ensures b ==> |name| >= 4 && name[|name| - 1] == 'g'
  {
    EndsWith(name, ".jpg") || EndsWith(name, ".jpeg") || EndsWith(name, ".png")
  }

  /**
   * The file-name classifier.  The image test comes first, but no name can
   * end both in ".pdf" and in an image suffix, so each kind is exactly its
   * own suffix test.
   */
  function Classify(name: string): (k: FileKind)
    ensures k == Image <==> HasImageSuffix(name)
    ensures k == Pdf <==> EndsWith(name, ".pdf")
    ensures k == Unrecognized <==> !HasImageSuffix(name) && !EndsWith(name, ".pdf")
  {
    if HasImageSuffix(name) then
      PdfIsNotImage(name);
      Image
    else if EndsWith(name, ".pdf") then Pdf
    else Unrecognized
  }

  /** A name ending in ".pdf" ends in 'f', and every image suffix ends in 'g'. */
  lemma PdfIsNotImage(name: string)
    ensures EndsWith(name, ".pdf") ==> !HasImageSuffix(name)
  {
    if EndsWith(name, ".pdf") {
      EndsWithLast(name, ".pdf");
      if EndsWith(name, ".jpg") { EndsWithLast(name, ".jpg"); }
      if EndsWith(name, ".jpeg") { EndsWithLast(name, ".jpeg"); }
      if EndsWith(name, ".png") { EndsWithLast(name, ".png"); }
    }
  }

  /** Names built from any stem and a lower-case suffix are classified by that suffix. */
  lemma ClassifyBySuffix(stem: string)
    ensures Classify(stem + ".jpg") == Image
    ensures Classify(stem + ".jpeg") == Image
    ensures Classify(stem + ".png") == Image
    ensures Classify(stem + ".pdf") == Pdf
  {
    AppendedSuffix(stem, ".jpg");
    AppendedSuffix(stem, ".jpeg");
    AppendedSuffix(stem, ".png");
    AppendedSuffix(stem, ".pdf");
  }

  /** The suffix tests are case-sensitive: upper-case extensions are not recognised. */
  lemma ClassifyIsCaseSensitive(stem: string)
    ensures Classify(stem + ".JPG") == Unrecognized
    ensures Classify(stem + ".JPEG") == Unrecognized
    ensures Classify(stem + ".PNG") == Unrecognized
    ensures Classify(stem + ".PDF") == Unrecognized
  {
    UnrecognizedByLastChar(stem + ".JPG");
    UnrecognizedByLastChar(stem + ".JPEG");
    UnrecognizedByLastChar(stem + ".PNG");
    UnrecognizedByLastChar(stem + ".PDF");
  }

  /** Every recognised suffix ends in a lower-case 'g' or 'f'. */
  lemma UnrecognizedByLastChar(name: string)
    requires |name| > 0 && name[|name| - 1] != 'g' && name[|name| - 1] != 'f'
    ensures Classify(name) == Unrecognized
  {
    if EndsWith(name, ".jpg") { EndsWithLast(name, ".jpg"); }
    if EndsWith(name, ".jpeg") { EndsWithLast(name, ".jpeg"); }
    if EndsWith(name, ".png") { EndsWithLast(name, ".png"); }
    if EndsWith(name, ".pdf") { EndsWithLast(name, ".pdf"); }
  }

  /**
   * What the document handler replies once the record is stored, given the
   * file name (absent for some uploads) and whether the bytes decode as an
   * image: a missing name or an undecodable image raises, a PDF gets its
   * placeholder, any other name gets no reply.
   */
  function DocumentReply(fileName: Option<string>, decodes: bool): (r: Reply)
    ensures r == Raised <==> fileName.None? || (HasImageSuffix(fileName.value) && !decodes)
    ensures r == Sent(ImageAnalysis) <==> fileName.Some? && HasImageSuffix(fileName.value) && decodes
    ensures r == Sent(PdfAnalysis) <==> fileName.Some? && EndsWith(fileName.value, ".pdf")
    ensures r == NoReply <==>
      fileName.Some? && !HasImageSuffix(fileName.value) && !EndsWith(fileName.value, ".pdf")
  {
    match fileName
    case None => Raised
    case Some(name) =>
      match Classify(name)
      case Image => if decodes then Sent(ImageAnalysis) else Raised
      case Pdf => Sent(PdfAnalysis)
      case Unrecognized => NoReply
  }

  // ---------------------------------------------------------------------------
  // Web search

  /** One entry of the search response's `organic_results`. */
  datatype SearchResult = SearchResult(title: string, link: string)

  /** The search response: `None` when it has no `organic_results` key. */
  type SearchResponse = Option<seq<SearchResult>>

  const AskForQuery: string := "Please provide a search query."
  const NoResults: string := "No search results found."
  const Header: string := "Top search results:"

  /** The line for one result, without its newline: it has a newline only if the title or link has one. */
  function Entry(r: SearchResult): (line: string)
    ensures |line| >= 2 && line[..2] == "- "
    ensures '\n' in line ==> '\n' in r.title || '\n' in r.link
  {
    "- " + r.title + ": " + r.link
  }

  function Entries(rs: seq<SearchResult>): seq<string>
  {
    seq(|rs|, i requires 0 <= i < |rs| => Entry(rs[i]))
  }

  /** Python's `rs[:5]`: the first five results, or all of them when there are fewer. */
  function FirstFive(rs: seq<SearchResult>): (top: seq<SearchResult>)
    ensures |top| == if |rs| < 5 then |rs| else 5
    ensures top == rs[..|top|]
  {
    if |rs| <= 5 then rs else rs[..5]
  }

  /** The summary: the header and one entry per leading result, every line ended by a newline. */
  function Summary(rs: seq<SearchResult>): (summary: string)
    ensures |summary| > |Header| && summary[..|Header| + 1] == Header + "\n"
    ensures summary[|summary| - 1] == '\n'
  {
    var lines := [Header] + Entries(FirstFive(rs));
    JoinSnoc(lines, "", '\n');
    Join([Header] + Entries(FirstFive(rs)) + [""], '\n')
  }

  /** The reply to a search response: the summary of its organic results, or the no-results message. */
  function SearchReply(response: SearchResponse): (reply: string)
    ensures response.None? <==> reply == NoResults
  {
    match response
    case None => NoResults
    case Some(rs) => Summary(rs)
  }

  /** One more result adds its entry and a newline to the text built so far. */
  lemma SummaryStep(top: seq<SearchResult>, i: nat)
    requires i < |top|
    ensures Join([Header] + Entries(top[..i + 1]) + [""], '\n') ==
            Join([Header] + Entries(top[..i]) + [""], '\n') + Entry(top[i]) + "\n"
  {
    var lines := [Header] + Entries(top[..i]);
    assert Entries(top[..i + 1]) == Entries(top[..i]) + [Entry(top[i])];
    assert [Header] + Entries(top[..i + 1]) + [""] == lines + [Entry(top[i])] + [""];
    JoinTerminatedSnoc(lines, Entry(top[i]), '\n');
  }

  /** Builds the summary line by line, as the handler's loop does. */
  method Summarize(results: seq<SearchResult>) returns (summary: string)
    ensures summary == Summary(results)
  {
    var top := FirstFive(results);
    summary := Header + "\n";
    var i := 0;
    while i < |top|
      invariant 0 <= i <= |top|
      invariant summary == Join([Header] + Entries(top[..i]) + [""], '\n')
    {
      SummaryStep(top, i);
      summary := summary + Entry(top[i]) + "\n";
      i := i + 1;
    }
    assert top[..i] == top;
  }

  /**
   * When no title or link holds a newline, the summary's lines are exactly
   * the header followed by the entries of the first min(5, n) results in
   * their original order (the final newline leaves an empty last piece).
   */
  lemma SummaryLines(rs: seq<SearchResult>)
    requires forall i :: 0 <= i < |rs| ==> '\n' !in rs[i].title && '\n' !in rs[i].link
    ensures var lines := Split(Summary(rs), '\n');
      |lines| == |FirstFive(rs)| + 2 &&
      lines == [Header] + Entries(FirstFive(rs)) + [""]
  {
    var lines := [Header] + Entries(FirstFive(rs)) + [""];
    forall i | 0 <= i < |lines| ensures '\n' !in lines[i] {
      if 1 <= i < |lines| - 1 {
        assert lines[i] == Entry(rs[i - 1]);
      }
    }
    SplitJoin(lines, '\n');
  }

  /**
   * The `/websearch` command.  With no arguments it asks for a query and
   * issues no search (`query` is `None`); otherwise it searches for the
   * arguments joined by single spaces and replies with the summary, or with
   * the no-results message when the response has no organic results.
   */
  method WebSearch(args: seq<string>, search: string -> SearchResponse)
    returns (reply: string, query: Option<string>)
    ensures query.None? <==> args == []
    ensures args == [] ==> reply == AskForQuery
    ensures args != [] ==> query == Some(Join(args, ' '))
    ensures query.Some? ==> reply == SearchReply(search(query.value))
  {
    if args == [] {
      return AskForQuery, None;
    }
    var q := Join(args, ' ');
    query := Some(q);
    var response := search(q);
    if response.Some? {
      reply := Summarize(response.value);
    } else {
      reply := NoResults;
    }
  }

  /** Command arguments carry no spaces, so the joined query splits back into them. */
  lemma QueryRoundTrip(args: seq<string>)
    requires args != []
    requires forall i :: 0 <= i < |args| ==> ' ' !in args[i]
    ensures Split(Join(args, ' '), ' ') == args
  {
    SplitJoin(args, ' ');
  }
}
