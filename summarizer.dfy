/**
 * Response handling of summarizer.py: the validity gate on the embedding reply, and the
 * cleanup of the text model's reply before it is parsed as JSON. The Gemini calls and
 * `json.loads` are oracles.
 */
module Summarizer {
  import opened Wrappers
  import opened Embeddings

  /** What the embedding call produced: it raised, or it returned a reply with or without an `embedding` key. */
  datatype EmbedReply = Raised | Returned(embedding: Option<Embedding>)

  /** `get_embedding`: the reply's embedding when it has exactly `Dim` components, `[]` otherwise. */
  function GetEmbedding(reply: EmbedReply): (e: Embedding)
    ensures e == [] || |e| == Dim
    ensures e != [] <==> reply.Returned? && reply.embedding.Some? && |reply.embedding.value| == Dim
    ensures e != [] ==> e == reply.embedding.value
  {
    match reply
    case Raised => []
    case Returned(None) => []
    case Returned(Some(embedding)) => if HasDim(embedding) then embedding else []
  }

  /** Python's `str.isspace` for one character: the characters `str.strip()` removes. */
  predicate IsSpace(c: char) {
    || c == ' '
    || '\t' <= c <= '\r'
    || '\U{1C}' <= c <= '\U{1F}'
    || c == '\U{85}' || c == '\U{A0}' || c == '\U{1680}'
    || '\U{2000}' <= c <= '\U{200A}'
    || c == '\U{2028}' || c == '\U{2029}' || c == '\U{202F}' || c == '\U{205F}' || c == '\U{3000}'
  }

  function TrimStart(s: string): (r: string)
    ensures |r| <= |s| && r == s[|s| - |r|..]
    ensures forall k :: 0 <= k < |s| - |r| ==> IsSpace(s[k])
    ensures r != [] ==> !IsSpace(r[0])
  {
    if s != [] && IsSpace(s[0]) then TrimStart(s[1..]) else s
  }

  function TrimEnd(s: string): (r: string)
    ensures |r| <= |s| && r == s[..|r|]
    ensures forall k :: |r| <= k < |s| ==> IsSpace(s[k])
    ensures r != [] ==> !IsSpace(r[|r| - 1])
  {
    if s != [] && IsSpace(s[|s| - 1]) then TrimEnd(s[..|s| - 1]) else s
  }

  /** `s.strip()`: `s` without its leading and trailing whitespace. */
  function Strip(s: string): (r: string)
    ensures |r| <= |s|
    ensures r != [] ==> !IsSpace(r[0]) && !IsSpace(r[|r| - 1])
  {
    TrimEnd(TrimStart(s))
  }

  /**
   * What `strip` removes is whitespace only: the result is the slice of `s` that starts after
   * the leading whitespace, and everything outside that slice is whitespace.
   */
  lemma StripRemovesOnlySpace(s: string)
    ensures var r := Strip(s);
      var i := |s| - |TrimStart(s)|;
      && i + |r| <= |s| && r == s[i..i + |r|]
      && (forall k :: 0 <= k < i ==> IsSpace(s[k]))
      && (forall k :: i + |r| <= k < |s| ==> IsSpace(s[k]))
  {
    var t := TrimStart(s);
    var r := TrimEnd(t);
    assert Strip(s) == r;
    SpaceAround(s, t, r);
  }

  /** The slice `r` of the suffix `t` of `s`, with whitespace after `r` in `t`, seen as a slice of `s`. */
  lemma SpaceAround(s: string, t: string, r: string)
    requires |r| <= |t| <= |s| && t == s[|s| - |t|..] && r == t[..|r|]
    requires forall k :: |r| <= k < |t| ==> IsSpace(t[k])
    ensures var i := |s| - |t|; r == s[i..i + |r|]
    ensures forall k :: |s| - |t| + |r| <= k < |s| ==> IsSpace(s[k])
  {
    var i := |s| - |t|;
    forall k | i + |r| <= k < |s|
      ensures IsSpace(s[k])
    {
      assert s[k] == t[k - i];
    }
  }

  predicate OccursAt(s: string, pat: string, i: int) {
    0 <= i && i + |pat| <= |s| && s[i..i + |pat|] == pat
  }

  /** `s.find(pat)`: the first index at which `pat` occurs in `s`, or -1. */
  function Find(s: string, pat: string): (i: int)
    ensures i == -1 || OccursAt(s, pat, i)
    ensures i == -1 <==> forall j :: !OccursAt(s, pat, j)
    ensures forall j :: 0 <= j < i ==> !OccursAt(s, pat, j)
  {
    FindFrom(s, pat, 0)
  }

  function FindFrom(s: string, pat: string, from: nat): (i: int)
    ensures i == -1 || (from <= i && OccursAt(s, pat, i))
    ensures forall j :: from <= j && (i == -1 || j < i) ==> !OccursAt(s, pat, j)
    decreases |s| - from
  {
    if from + |pat| > |s| then -1
    else if s[from..from + |pat|] == pat then from
    else FindFrom(s, pat, from + 1)
  }

  /** At most this many characters of the page go into the prompt. */
  const ContentLimit: nat := 2000

  const PromptHead: string :=
    "\nYou are an intelligent assistant. Summarize the following content and classify the type of webpage. \n"
    + "Return **only** valid JSON in the format: {\"summary\": \"...\", \"type\": \"...\"} \U{2014} no commentary, no explanation.\n"
    + "\nContent:\n\"\"\"\n"

  const PromptTail: string := "\n\"\"\"\n"

  /** The prompt sent to the text model: the instructions around `content[:2000]`. */
  function Prompt(content: string): string {
    PromptHead + content[..Min(|content|, ContentLimit)] + PromptTail
  }

  /** The prompt carries the first min(|content|, 2000) characters of the content, and all of a short content. */
  lemma PromptEmbedsExcerpt(content: string)
    ensures var k := Min(|content|, ContentLimit);
      var p := Prompt(content);
      && k <= ContentLimit
      && |p| == |PromptHead| + k + |PromptTail|
      && p[|PromptHead|..|PromptHead| + k] == content[..k]
      && (|content| <= ContentLimit ==> p[|PromptHead|..|PromptHead| + k] == content)
  {
  }

  const Fence: string := "```"

  /** `text.startswith("```") and "```" in text[3:]`. */
  predicate Fenced(text: string) {
    |text| >= 3 && text[..3] == Fence && Find(text[3..], Fence) != -1
  }

  /** The fence step: a fenced reply becomes `text.split("```")[1].strip()`, any other stays as it is. */
  function Unfence(text: string): string {
    if Fenced(text) then Strip(text[3..3 + Find(text[3..], Fence)]) else text
  }

  /**
   * A fenced text becomes the stripped segment between its opening fence at index 0 and the
   * first fence that starts at index 3 or later; a text that is not fenced is unchanged.
   */
  lemma UnfenceTakesFirstSegment(text: string)
    ensures !Fenced(text) ==> Unfence(text) == text
    ensures Fenced(text) ==>
      var j := 3 + Find(text[3..], Fence);
      && OccursAt(text, Fence, 0) && OccursAt(text, Fence, j)
      && (forall m :: 3 <= m < j ==> !OccursAt(text, Fence, m))
      && Unfence(text) == Strip(text[3..j])
  {
    if Fenced(text) {
      assert text[0..3] == text[..3];
      FirstInSuffix(text, Fence, 3);
    }
  }

  /** The first occurrence of `pat` in `s[d..]` is the first occurrence in `s` at index `d` or later. */
  lemma FirstInSuffix(s: string, pat: string, d: nat)
    requires d <= |s| && Find(s[d..], pat) != -1
    ensures var j := d + Find(s[d..], pat);
      OccursAt(s, pat, j) && forall m :: d <= m < j ==> !OccursAt(s, pat, m)
  {
    var f := Find(s[d..], pat);
    OccursInSuffix(s, pat, d, f);
    forall m | d <= m < d + f
      ensures !OccursAt(s, pat, m)
    {
      OccursInSuffix(s, pat, d, m - d);
    }
  }

  /** An occurrence in the suffix `s[d..]` is an occurrence in `s`, `d` positions later. */
  lemma OccursInSuffix(s: string, pat: string, d: nat, j: nat)
    requires d <= |s|
    ensures OccursAt(s[d..], pat, j) <==> OccursAt(s, pat, j + d)
  {
    if j + |pat| <= |s| - d {
      assert s[d..][j..j + |pat|] == s[j + d..j + d + |pat|];
    }
  }

  /** The brace step: the text from its first `{` on, or the text unchanged when it has none. */
  function FromFirstBrace(text: string): (r: string)
    ensures |r| <= |text|
    ensures '{' in text ==>
      && |r| > 0 && r[0] == '{'
      && r == text[|text| - |r|..]
      && '{' !in text[..|text| - |r|]
    ensures '{' !in text ==> r == text
  {
    var i := Find(text, "{");
    BraceOccurrences(text);
    if i != -1 then text[i..] else text
  }

  /** An occurrence of the one-character pattern "{" is an occurrence of the character. */
  lemma BraceOccurrences(text: string)
    ensures forall j :: OccursAt(text, "{", j) <==> 0 <= j < |text| && text[j] == '{'
  {
    forall j | 0 <= j < |text|
      ensures OccursAt(text, "{", j) <==> text[j] == '{'
    {
      assert text[j..j + 1] == [text[j]];
    }
  }

  /** The text handed to `json.loads`: strip, extract a fenced segment, then cut to the first `{`. */
  function CleanResponse(raw: string): string {
    FromFirstBrace(Unfence(Strip(raw)))
  }

  /** What `json.loads` produced for the cleaned text: an object, or some other JSON value. */
  datatype Parsed = Object(fields: map<string, string>) | NotObject

  const Failed: (string, string) := ("Summary failed", "Unknown")

  /** `json_output.get(key, "")`. */
  function Field(fields: map<string, string>, key: string): string {
    if key in fields then fields[key] else ""
  }

  /**
   * `summarize_and_classify(content)`: `generate` is the text model (None when the call or
   * `response.text` raises) and `parseJson` is `json.loads` (None when it raises).
   */
  function SummarizeAndClassify(content: string, generate: string -> Option<string>, parseJson: string -> Option<Parsed>)
    : (string, string)
  {
    match generate(Prompt(content))
    case None => Failed
    case Some(raw) =>
      match parseJson(CleanResponse(raw))
      case Some(Object(fields)) => (Field(fields, "summary"), Field(fields, "type"))
      case _ => Failed
  }

  /**
   * A reply that parses as an object yields its `summary` and `type` entries, `""` for a
   * missing one; any failure of the model call, of parsing, or a non-object yields `Failed`.
   */
  lemma SummarizeOutcomes(content: string, generate: string -> Option<string>, parseJson: string -> Option<Parsed>)
    ensures generate(Prompt(content)).None? ==> SummarizeAndClassify(content, generate, parseJson) == Failed
    ensures generate(Prompt(content)).Some? ==>
      var parsed := parseJson(CleanResponse(generate(Prompt(content)).value));
      var r := SummarizeAndClassify(content, generate, parseJson);
      && (parsed.None? || parsed == Some(NotObject) ==> r == Failed)
      && (parsed.Some? && parsed.value.Object? ==>
            && (("summary" in parsed.value.fields) ==> r.0 == parsed.value.fields["summary"])
            && (("summary" !in parsed.value.fields) ==> r.0 == "")
            && (("type" in parsed.value.fields) ==> r.1 == parsed.value.fields["type"])
            && (("type" !in parsed.value.fields) ==> r.1 == ""))
  {
  }
}
