/** The observation form: asking the generation endpoint for an image,
    validating and sanitising an observation before it is handed on, and the
    provider/model selector whose value packs both into one string. */
module DataEntry {
  import opened Js
  import GenerateApi

  // ---------------------------------------------------------------------
  // The tag stripper `s.replace(/<[^>]*>?/gm, '')`: each `<` starts a match
  // that runs over every following character other than `>` and then takes
  // one `>` if there is one.

  /** What is left after the rest of a tag, given the text after its `<`:
      everything after the first `>`, or nothing when there is none. */
  function AfterTag(s: string): (r: string)
    ensures |r| <= |s| && r == s[|s| - |r|..]
    decreases |s|
  {
    if s == [] then []
    else if s[0] == '>' then s[1..]
    else AfterTag(s[1..])
  }

  /** The text with every tag match removed. No `<` survives and nothing is
      added. */
  function StripTags(s: string): (r: string)
    ensures '<' !in r
    ensures |r| <= |s|
    decreases |s|
  {
    if s == [] then []
    else if s[0] == '<' then StripTags(AfterTag(s[1..]))
    else [s[0]] + StripTags(s[1..])
  }

  /** Text without `<` is left as it is. */
  lemma {:induction false} StripTagsKeepsPlainText(s: string)
    requires '<' !in s
    ensures StripTags(s) == s
    decreases |s|
  {
    if s != [] {
      assert s[0] != '<' && '<' !in s[1..];
      StripTagsKeepsPlainText(s[1..]);
    }
  }

  /** Stripping twice strips nothing more. */
  lemma StripTagsIdempotent(s: string)
    ensures StripTags(StripTags(s)) == StripTags(s)
  {
    StripTagsKeepsPlainText(StripTags(s));
  }

  /** Skipping an element of `b` keeps `a` a subsequence of it. */
  lemma {:induction false} SubsequenceSkip<T>(a: seq<T>, x: T, b: seq<T>)
    requires IsSubsequence(a, b)
    ensures IsSubsequence(a, [x] + b)
    decreases |b|, 1
  {
    assert ([x] + b)[1..] == b;
    if a != [] && a[0] == x {
      SubsequenceDropHead(a, b);
    }
  }

  /** Dropping the first element of `a` keeps it a subsequence of `b`. */
  lemma {:induction false} SubsequenceDropHead<T>(a: seq<T>, b: seq<T>)
    requires a != [] && IsSubsequence(a, b)
    ensures IsSubsequence(a[1..], b)
    decreases |b|, 0
  {
    if a[0] == b[0] {
      SubsequenceSkip(a[1..], b[0], b[1..]);
    } else {
      SubsequenceDropHead(a, b[1..]);
      SubsequenceSkip(a[1..], b[0], b[1..]);
    }
    assert [b[0]] + b[1..] == b;
  }

  lemma {:induction false} SubsequenceSkipAll<T>(a: seq<T>, p: seq<T>, b: seq<T>)
    requires IsSubsequence(a, b)
    ensures IsSubsequence(a, p + b)
    decreases |p|
  {
    if p != [] {
      SubsequenceSkipAll(a, p[1..], b);
      SubsequenceSkip(a, p[0], p[1..] + b);
      assert [p[0]] + (p[1..] + b) == p + b;
    } else {
      assert p + b == b;
    }
  }

  /** Stripping only removes characters: what is left appears in the input
      in the same order. */
  lemma {:induction false} StripTagsSubsequence(s: string)
    ensures IsSubsequence(StripTags(s), s)
    decreases |s|
  {
    if s != [] {
      if s[0] == '<' {
        var rest := AfterTag(s[1..]);
        StripTagsSubsequence(rest);
        var k := |s| - |rest|;
        assert s == s[..k] + rest;
        SubsequenceSkipAll(StripTags(rest), s[..k], rest);
      } else {
        StripTagsSubsequence(s[1..]);
        assert StripTags(s)[1..] == StripTags(s[1..]);
      }
    }
  }

  /** The rest of a tag without `>` runs to the end. */
  lemma {:induction false} AfterTagRunsOut(inner: string)
    requires '>' !in inner
    ensures AfterTag(inner) == []
    decreases |inner|
  {
    if inner != [] {
      assert inner[0] != '>' && '>' !in inner[1..];
      AfterTagRunsOut(inner[1..]);
    }
  }

  /** The rest of a tag ends just after its first `>`. */
  lemma {:induction false} AfterTagCloses(inner: string, t: string)
    requires '>' !in inner
    ensures AfterTag(inner + ['>'] + t) == t
    decreases |inner|
  {
    var s := inner + ['>'] + t;
    if inner == [] {
      assert s == ['>'] + t && s[1..] == t;
    } else {
      assert s[0] == inner[0] && inner[0] != '>';
      assert s[1..] == inner[1..] + ['>'] + t;
      assert '>' !in inner[1..];
      AfterTagCloses(inner[1..], t);
    }
  }

  /** A prompt made of one tag, closed or not, strips to the empty text. */
  lemma OneTagStripsToEmpty(inner: string)
    requires '>' !in inner
    ensures StripTags("<" + inner) == []
    ensures StripTags("<" + inner + ">") == []
  {
    var open, closed := "<" + inner, "<" + inner + ">";
    assert open[0] == '<' && open[1..] == inner;
    AfterTagRunsOut(inner);
    assert StripTags(open) == StripTags([]);
    assert closed[0] == '<' && closed[1..] == inner + ['>'] + [];
    AfterTagCloses(inner, []);
    assert StripTags(closed) == StripTags([]);
  }

  // ---------------------------------------------------------------------
  // The provider/model selector.

  /** `s.split(c)`: the pieces between the occurrences of `c`. */
  function Split(s: string, c: char): (parts: seq<string>)
    ensures parts != []
    ensures forall i :: 0 <= i < |parts| ==> c !in parts[i]
    decreases |s|
  {
    if s == [] then [[]]
    else if s[0] == c then [[]] + Split(s[1..], c)
    else
      var rest := Split(s[1..], c);
      [[s[0]] + rest[0]] + rest[1..]
  }

  /** Splitting text that starts with a `c`-free piece. */
  lemma {:induction false} SplitAfterPiece(x: string, t: string, c: char)
    requires c !in x
    ensures Split(x + t, c) == [x + Split(t, c)[0]] + Split(t, c)[1..]
    decreases |x|
  {
    if x != [] {
      assert (x + t)[0] == x[0] && (x + t)[1..] == x[1..] + t;
      SplitAfterPiece(x[1..], t, c);
      assert [x[0]] + (x[1..] + Split(t, c)[0]) == x + Split(t, c)[0];
    } else {
      var parts := Split(t, c);
      assert x + t == t && x + parts[0] == parts[0];
      assert [parts[0]] + parts[1..] == parts;
    }
  }

  /** Joining with `c` and splitting on `c` give back pieces that do not
      contain `c`. */
  lemma {:induction false} SplitJoined(parts: seq<string>, c: char)
    requires parts != []
    requires forall i :: 0 <= i < |parts| ==> c !in parts[i]
    ensures Split(Join(parts, [c]), c) == parts
    decreases |parts|
  {
    if |parts| == 1 {
      SplitAfterPiece(parts[0], [], c);
      assert parts[0] + [] == parts[0] && Join(parts, [c]) + [] == parts[0] + [];
    } else {
      var t := [c] + Join(parts[1..], [c]);
      assert Join(parts, [c]) == parts[0] + t;
      SplitJoined(parts[1..], c);
      assert t[1..] == Join(parts[1..], [c]);
      assert Split(t, c) == [[]] + parts[1..];
      SplitAfterPiece(parts[0], t, c);
      assert parts[0] + [] == parts[0];
      assert [parts[0]] + parts[1..] == parts;
    }
  }

  /** Splitting on `c` and joining with `c` gives back the text. */
  lemma {:induction false} JoinSplit(s: string, c: char)
    ensures Join(Split(s, c), [c]) == s
    decreases |s|
  {
    if s != [] {
      JoinSplit(s[1..], c);
      var rest := Split(s[1..], c);
      if s[0] == c {
        assert Split(s, c)[1..] == rest;
      } else {
        var parts := Split(s, c);
        assert parts[1..] == rest[1..];
        if |rest| > 1 {
          assert Join(rest, [c]) == rest[0] + [c] + Join(rest[1..], [c]);
        }
      }
      assert s == [s[0]] + s[1..];
    }
  }

  /** The selector's value `${provider}:${model}`. */
  function SelectValue(provider: string, model: string): (v: string)
    ensures ':' !in provider && ':' !in model ==> Split(v, ':') == [provider, model]
  {
    if ':' !in provider && ':' !in model then
      assert Join([provider, model], ":") == provider + ":" + model;
      SplitJoined([provider, model], ':');
      provider + ":" + model
    else
      provider + ":" + model
  }

  /** The selector's options, as (provider, model). */
  const OPTIONS: seq<(string, string)> :=
    [("hf", "FLUX.1 (Hugging Face)"), ("openai", "DALL-E 3"), ("replicate", "Flux Dev"), ("google", "Imagen 3")]

  /** Splitting an option's value on `:` gives back its provider and model,
      since neither contains a colon. */
  lemma OptionsSplitBack(i: nat)
    requires i < |OPTIONS|
    ensures Split(SelectValue(OPTIONS[i].0, OPTIONS[i].1), ':') == [OPTIONS[i].0, OPTIONS[i].1]
  {
    var (p, m) := OPTIONS[i];
    assert ':' !in p && ':' !in m;
  }

  /** Of the four providers the form offers, the generation endpoint routes
      all but `hf`, the default: the endpoint matches `huggingface`. */
  lemma OnlyDefaultProviderUnrouted(i: nat)
    requires i < |OPTIONS|
    ensures GenerateApi.Routed(Some(OPTIONS[i].0)) <==> i != 0
    ensures OPTIONS[0].0 == "hf"
  {
  }

  // ---------------------------------------------------------------------
  // The form.

  type Blob = GenerateApi.Blob

  /** The generation endpoint's reply as the form reads it: the status and
      the body's `error` and `imageUrl`. */
  datatype Reply = Reply(status: int, error: Option<string>, imageUrl: Option<string>)

  const DISABLED_MESSAGE := "La generazione è stata disattivata dall'amministratore."
  const GENERATION_FAILED := "Errore nella generazione."
  const MAX_PROMPT_LENGTH := 500

  /** What the form hands to `onAddEntry`: its fields with prompt and notes
      stripped of tags. */
  datatype Observation = Observation(prompt: string, model: string, provider: string, genderBias: string, notes: string)

  /** The submit guard: a prompt, an image, and at most 500 characters of
      prompt as typed. */
  predicate Accepted(prompt: string, blob: Option<Blob>)
    ensures Accepted(prompt, blob) ==> |StripTags(prompt)| <= MAX_PROMPT_LENGTH
  {
    prompt != "" && blob.Some? && |prompt| <= MAX_PROMPT_LENGTH
  }

  /** The length limit applies to the prompt as typed, so a prompt stripped
      down to nothing passes it while a long one that would strip down to
      nothing does not. */
  lemma LengthCheckedBeforeStripping(inner: string, blob: Blob)
    requires '>' !in inner
    ensures StripTags("<" + inner) == []
    ensures Accepted("<" + inner, Some(blob)) <==> |inner| < MAX_PROMPT_LENGTH
  {
    OneTagStripsToEmpty(inner);
  }

  class EntryForm {
    var prompt: string
    var model: string
    var provider: string
    var genderBias: string
    var notes: string
    var generatedImage: Option<string>
    var imageBlob: Option<Blob>
    var isGenerating: bool
    var error: string
    var generationEnabled: bool

    /** The form's first state: Hugging Face selected, generation assumed
        enabled, nothing generated. */
    constructor ()
      ensures prompt == "" && notes == "" && genderBias == "Male"
      ensures (provider, model) == OPTIONS[0]
      ensures generatedImage.None? && imageBlob.None? && !isGenerating && error == "" && generationEnabled
    {
      prompt := "";
      model := "FLUX.1 (Hugging Face)";
      provider := "hf";
      genderBias := "Male";
      notes := "";
      generatedImage := None;
      imageBlob := None;
      isGenerating := false;
      error := "";
      generationEnabled := true;
    }

    /** Choosing an option stores its provider and model. */
    method Choose(value: string)
      requires exists i :: 0 <= i < |OPTIONS| && value == SelectValue(OPTIONS[i].0, OPTIONS[i].1)
      modifies this
      ensures exists i :: 0 <= i < |OPTIONS| && (provider, model) == OPTIONS[i] && value == SelectValue(provider, model)
      ensures prompt == old(prompt) && notes == old(notes) && genderBias == old(genderBias)
      ensures generatedImage == old(generatedImage) && imageBlob == old(imageBlob)
      ensures isGenerating == old(isGenerating) && error == old(error) && generationEnabled == old(generationEnabled)
    {
      var i :| 0 <= i < |OPTIONS| && value == SelectValue(OPTIONS[i].0, OPTIONS[i].1);
      OptionsSplitBack(i);
      var parts := Split(value, ':');
      provider, model := parts[0], parts[1];
    }

    /** One press of the generate button. `reply` is the endpoint's reply
        (or what the request or reading its body threw) and `image` the
        fetch of the returned address as a blob. With an empty prompt
        nothing is requested. Otherwise the form ends idle; a 403 turns
        generation off with a fixed message, another failure shows the
        reply's error or a default, and only a fetched image replaces the
        stored blob, so a failed attempt leaves the previous image's blob in
        place. */
    method Generate(reply: Call<Reply>, image: Call<Blob>) returns (requested: bool)
      modifies this
      ensures requested <==> old(prompt) != ""
      ensures !requested ==>
        prompt == old(prompt) && generatedImage == old(generatedImage) && imageBlob == old(imageBlob) &&
        isGenerating == old(isGenerating) && error == old(error) && generationEnabled == old(generationEnabled)
      ensures prompt == old(prompt) && model == old(model) && provider == old(provider)
      ensures genderBias == old(genderBias) && notes == old(notes)
      ensures requested ==> !isGenerating
      ensures requested ==> (generationEnabled <==> !(reply.Returned? && !Ok(reply.value.status) && reply.value.status == 403))
      ensures requested && reply.Threw? ==> error == reply.message
      ensures requested && reply.Returned? && !Ok(reply.value.status) ==>
        error == (if reply.value.status == 403 then DISABLED_MESSAGE
                  else if Truthy(reply.value.error) then reply.value.error.value
                  else GENERATION_FAILED)
      ensures requested && reply.Returned? && Ok(reply.value.status) && image.Threw? ==> error == image.message
      ensures requested && reply.Returned? && Ok(reply.value.status) && image.Returned? ==>
        error == "" && generatedImage == reply.value.imageUrl && imageBlob == Some(image.value)
      ensures requested && !(reply.Returned? && Ok(reply.value.status) && image.Returned?) ==>
        generatedImage.None? && imageBlob == old(imageBlob)
    {
      if prompt == "" {
        return false;
      }
      requested := true;
      isGenerating := true;
      generatedImage := None;
      error := "";
      generationEnabled := true;
      match reply {
        case Threw(message) =>
          error := message;
        case Returned(data) =>
          if !Ok(data.status) {
            if data.status == 403 {
              generationEnabled := false;
              error := DISABLED_MESSAGE;
            } else {
              error := if Truthy(data.error) then data.error.value else GENERATION_FAILED;
            }
          } else {
            match image {
              case Threw(message) =>
                error := message;
              case Returned(blob) =>
                generatedImage := data.imageUrl;
                imageBlob := Some(blob);
            }
          }
      }
      isGenerating := false;
    }

    /** Submitting the form. It hands on an observation only when the guard
        accepts the prompt as typed and an image blob is held; the handed
        observation carries the stripped prompt and notes and the current
        selections, and afterwards prompt, notes, image and error are
        cleared while provider, model and gender stay. A rejected submit
        changes nothing. */
    method Submit() returns (added: Option<(Observation, Blob)>)
      modifies this
      ensures added.Some? <==> Accepted(old(prompt), old(imageBlob))
      ensures added.None? ==>
        prompt == old(prompt) && notes == old(notes) && generatedImage == old(generatedImage) &&
        imageBlob == old(imageBlob) && error == old(error)
      ensures added.Some? ==>
        added.value == (Observation(StripTags(old(prompt)), old(model), old(provider), old(genderBias), StripTags(old(notes))),
                        old(imageBlob).value)
      ensures added.Some? ==> prompt == "" && notes == "" && generatedImage.None? && imageBlob.None? && error == ""
      ensures model == old(model) && provider == old(provider) && genderBias == old(genderBias)
      ensures isGenerating == old(isGenerating) && generationEnabled == old(generationEnabled)
    {
      if prompt == "" || imageBlob.None? {
        return None;
      }
      if |prompt| > MAX_PROMPT_LENGTH {
        return None;
      }
      var sanitized := Observation(StripTags(prompt), model, provider, genderBias, StripTags(notes));
      added := Some((sanitized, imageBlob.value));
      prompt, notes := "", "";
      generatedImage := None;
      imageBlob := None;
      error := "";
    }
  }
}
