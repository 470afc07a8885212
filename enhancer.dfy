/** The prompt text pipeline of the side panel (`SmartEnhancer` in panel.js):
    style suffixes, the shared scene context, the clean-up pass and the
    camera/time-of-day variations. All of it is pure string code. */
module Enhancer {
  import opened TextOps
  import opened Opt

  /** The shared scene context the panel applies to every text prompt. */
  datatype SceneContext = SceneContext(
    character: string,
    location: string,
    style: string,
    mood: string,
    cameraStyle: string)

  /** The named styles of `SmartEnhancer.styles`. */
  datatype Style = Cinematic | Anime | Realistic | Vintage | Documentary | Noir | SciFi

  /** The style a key names, if any; `none` and unknown keys name none. */
  function StyleNamed(key: string): Option<Style> {
    if key == "cinematic" then Some(Cinematic)
    else if key == "anime" then Some(Anime)
    else if key == "realistic" then Some(Realistic)
    else if key == "vintage" then Some(Vintage)
    else if key == "documentary" then Some(Documentary)
    else if key == "noir" then Some(Noir)
    else if key == "scifi" then Some(SciFi)
    else None
  }

  /** The descriptors of a style before its closing one, each followed by a comma and a
      space. */
  function LeadingDescriptors(st: Style): string {
    match st
    case Cinematic => "cinematic lighting, 4K resolution, professional color grading, shallow depth of field, "
    case Anime => "anime style, vibrant colors, studio ghibli inspired, cel shading, "
    case Realistic => "photorealistic, natural lighting, 8K UHD, hyperdetailed, "
    case Vintage => "vintage film grain, nostalgic color palette, retro aesthetic, 35mm film look, "
    case Documentary => "documentary style, handheld camera feel, natural lighting, "
    case Noir => "film noir style, high contrast, dramatic shadows, black and white tones, "
    case SciFi => "sci-fi aesthetic, futuristic elements, neon lighting, holographic effects, "
  }

  /** The closing descriptor of a style. */
  function ClosingDescriptor(st: Style): (r: string)
    ensures Closed(r)
  {
    match st
    case Cinematic => "film grain"
    case Anime => "dynamic composition"
    case Realistic => "professional photography"
    case Vintage => "warm tones"
    case Documentary => "authentic atmosphere"
    case Noir => "moody atmosphere"
    case SciFi => "cyberpunk vibes"
  }

  /** The descriptors of a style. */
  function Descriptors(st: Style): (r: string)
    ensures Closed(r)
  {
    LeadingDescriptors(st) + ClosingDescriptor(st)
  }

  /** The suffix a style appends: a comma, a space and its descriptors. */
  function Suffix(st: Style): string {
    ", " + Descriptors(st)
  }

  /** `SmartEnhancer.styles[style]` */
  function StyleSuffix(key: string): Option<string> {
    match StyleNamed(key)
    case Some(st) => Some(Suffix(st))
    case None => None
  }

  /** The camera movements of `SmartEnhancer.cameraStyles`. */
  datatype Camera = Tracking | Dolly | Aerial | Handheld | Static | Crane | Pov

  /** The cameras in the declaration order that `Object.values` follows. */
  const CameraOrder: seq<Camera> := [Tracking, Dolly, Aerial, Handheld, Static, Crane, Pov]

  function CameraNamed(key: string): Option<Camera> {
    if key == "tracking" then Some(Tracking)
    else if key == "dolly" then Some(Dolly)
    else if key == "aerial" then Some(Aerial)
    else if key == "handheld" then Some(Handheld)
    else if key == "static" then Some(Static)
    else if key == "crane" then Some(Crane)
    else if key == "pov" then Some(Pov)
    else None
  }

  /** The first two letters of each camera phrase; no two cameras share them. */
  function Initials(c: Camera): (char, char) {
    match c
    case Tracking => ('s', 'm')
    case Dolly => ('d', 'o')
    case Aerial => ('a', 'e')
    case Handheld => ('h', 'a')
    case Static => ('s', 't')
    case Crane => ('c', 'r')
    case Pov => ('p', 'o')
  }

  /** The phrase of a camera movement: it ends in a non-space and begins with its initials. */
  function Phrase(c: Camera): (r: string)
    ensures |r| >= 2 && (r[0], r[1]) == Initials(c) && !IsSpace(r[|r| - 1])
  {
    match c
    case Tracking => "smooth " + "tracking shot, " + "following subject"
    case Dolly => "dolly " + "zoom effect, " + "dramatic perspective"
    case Aerial => "aerial " + "drone shot, " + "sweeping view from above"
    case Handheld => "handheld " + "camera, " + "authentic movement"
    case Static => "static " + "locked-off shot, " + "stable composition"
    case Crane => "crane " + "shot, " + "rising or descending movement"
    case Pov => "point " + "of view shot, " + "first person perspective"
  }

  /** `SmartEnhancer.cameraStyles[key]` */
  function CameraPhrase(key: string): Option<string> {
    match CameraNamed(key)
    case Some(c) => Some(Phrase(c))
    case None => None
  }

  /** A string that ends in a non-space character. */
  predicate Closed(s: string) { |s| > 0 && !IsSpace(s[|s| - 1]) }

  /** The shape of every style suffix: a leading comma and a closed end. */
  predicate SuffixShaped(suffix: Option<string>) {
    suffix.Some? ==> Closed(suffix.value) && suffix.value[0] == ','
  }

  /** The shape of every camera phrase: a closed end. */
  predicate PhraseShaped(phrase: Option<string>) {
    phrase.Some? ==> Closed(phrase.value)
  }

  lemma CommaJoinShaped(d: string)
    requires Closed(d)
    ensures SuffixShaped(Some(", " + d))
  {
  }

  /** Every entry of the two tables has the shape the enhancer relies on. */
  lemma TablesShaped(style: string, camera: string)
    ensures SuffixShaped(StyleSuffix(style)) && PhraseShaped(CameraPhrase(camera))
  {
    if StyleNamed(style).Some? {
      CommaJoinShaped(Descriptors(StyleNamed(style).value));
    }
  }

  /** The times of day `generateVariations` cycles through; their first letters differ. */
  function TimeOfDay(k: nat): (r: string)
    requires k < 5
    ensures |r| > 0 && r[0] == "msbgn"[k]
  {
    if k == 0 then "morning light"
    else if k == 1 then "sunset glow"
    else if k == 2 then "blue hour twilight"
    else if k == 3 then "golden hour"
    else "night time"
  }

  /** `hasContext()`: some field of the context is non-empty. */
  predicate HasContext(ctx: SceneContext) {
    ctx.character != "" || ctx.location != "" || ctx.style != "" || ctx.mood != "" || ctx.cameraStyle != ""
  }

  /** The phrase `applyContext` adds for one descriptive field: nothing when the field is
      empty or already occurs, ignoring case, in the lower-cased input `lower`. */
  function FieldPart(field: string, lower: string, before: string, after: string): string {
    if field != "" && !Contains(lower, ToLower(field)) then before + field + after else ""
  }

  function CharacterPart(ctx: SceneContext, lower: string): string { FieldPart(ctx.character, lower, ", featuring ", "") }
  function LocationPart(ctx: SceneContext, lower: string): string { FieldPart(ctx.location, lower, ", set in ", "") }
  function ContextStylePart(ctx: SceneContext, lower: string): string { FieldPart(ctx.style, lower, ", ", "") }
  function MoodPart(ctx: SceneContext, lower: string): string { FieldPart(ctx.mood, lower, ", ", " atmosphere") }

  /** The camera phrase is added whenever the key is known, whatever the input holds. */
  function CameraPart(phrase: Option<string>): string {
    match phrase
    case Some(p) => ", " + p
    case None => ""
  }

  /** The phrases `applyContext` appends, in the fixed order character, location, style,
      mood, camera, each tested against the lower-cased input `lower` (not against the
      growing result); `phrase` is the looked-up camera phrase. */
  function ContextTail(ctx: SceneContext, lower: string, phrase: Option<string>): string {
    CharacterPart(ctx, lower) + LocationPart(ctx, lower) + ContextStylePart(ctx, lower)
      + MoodPart(ctx, lower) + CameraPart(phrase)
  }

  function ApplyPhrases(prompt: string, ctx: SceneContext, phrase: Option<string>): string {
    prompt + ContextTail(ctx, ToLower(prompt), phrase)
  }

  /** `applyContext(prompt)` */
  function ApplyContext(prompt: string, ctx: SceneContext): string {
    ApplyPhrases(prompt, ctx, CameraPhrase(ctx.cameraStyle))
  }

  /** The style step of `enhance`: the style's suffix unless the text already holds it. */
  function WithSuffix(text: string, suffix: Option<string>): string {
    match suffix
    case Some(s) => if Contains(text, s) then text else text + s
    case None => text
  }

  /** `enhance` once the style suffix and the camera phrase have been looked up. */
  function EnhanceWith(prompt: string, suffix: Option<string>, applyContext: bool, ctx: SceneContext, phrase: Option<string>): string {
    var styled := WithSuffix(Trim(prompt), suffix);
    if applyContext && HasContext(ctx) then ApplyPhrases(styled, ctx, phrase) else styled
  }

  /** `SmartEnhancer.enhance(prompt, { style, applyContext })` */
  function Enhance(prompt: string, style: string, applyContext: bool, ctx: SceneContext): string {
    EnhanceWith(prompt, StyleSuffix(style), applyContext, ctx, CameraPhrase(ctx.cameraStyle))
  }

  // ---------------------------------------------------------------------------
  // What enhance promises

  /** The `hasContext()` guard never changes the outcome: with an empty context,
      `applyContext` adds nothing either. */
  lemma EmptyContextAddsNothing(prompt: string, ctx: SceneContext)
    requires !HasContext(ctx)
    ensures ApplyContext(prompt, ctx) == prompt
  {
  }

  /** A field that is non-empty occurs, ignoring case, in what `applyContext` returns:
      either it was already in the input or its phrase was appended. */
  lemma {:induction false} FieldPresentAfter(prompt: string, pre: string, field: string, before: string, after: string, post: string)
    requires field != ""
    requires StartsWith(pre, prompt)
    ensures Contains(ToLower(pre + FieldPart(field, ToLower(prompt), before, after) + post), ToLower(field))
  {
    var part := FieldPart(field, ToLower(prompt), before, after);
    if part == "" {
      assert Contains(ToLower(prompt), ToLower(field));
      assert pre == prompt + pre[|prompt|..];
      ToLowerConcat(prompt, pre[|prompt|..] + post);
      assert ToLower(pre + part + post) == ToLower(prompt) + ToLower(pre[|prompt|..] + post) by {
        assert pre + part + post == prompt + (pre[|prompt|..] + post);
      }
      ContainsExtend(ToLower(prompt), ToLower(pre[|prompt|..] + post), ToLower(field));
    } else {
      assert pre + part + post == (pre + before) + field + (after + post);
      LowerContainsMiddle(pre + before, field, after + post);
    }
  }

  /** A field found in the tail `applyContext` appends to `s`, or already in `s`. */
  lemma {:induction false} FieldInResult(s: string, pre: string, field: string, before: string, after: string, post: string)
    requires field != ""
    ensures Contains(ToLower(s + (pre + FieldPart(field, ToLower(s), before, after) + post)), ToLower(field))
  {
    var whole := s + (pre + FieldPart(field, ToLower(s), before, after) + post);
    assert whole == s + pre + FieldPart(field, ToLower(s), before, after) + post;
    assert StartsWith(s + pre, s);
    FieldPresentAfter(s, s + pre, field, before, after, post);
  }

  /** The regroupings of the five phrases the field lemmas below need. */
  lemma Regroup(p1: string, p2: string, p3: string, p4: string, p5: string)
    ensures p1 + p2 + p3 + p4 + p5 == "" + p1 + (p2 + p3 + p4 + p5)
    ensures p1 + p2 + p3 + p4 + p5 == p1 + p2 + (p3 + p4 + p5)
    ensures p1 + p2 + p3 + p4 + p5 == (p1 + p2) + p3 + (p4 + p5)
  {
  }

  lemma CharacterCovered(s: string, ctx: SceneContext, phrase: Option<string>)
    requires ctx.character != ""
    ensures Contains(ToLower(ApplyPhrases(s, ctx, phrase)), ToLower(ctx.character))
  {
    var lower := ToLower(s);
    var p1, p2, p3, p4, p5 := CharacterPart(ctx, lower), LocationPart(ctx, lower), ContextStylePart(ctx, lower), MoodPart(ctx, lower), CameraPart(phrase);
    Regroup(p1, p2, p3, p4, p5);
    FieldInResult(s, "", ctx.character, ", featuring ", "", p2 + p3 + p4 + p5);
  }

  lemma LocationCovered(s: string, ctx: SceneContext, phrase: Option<string>)
    requires ctx.location != ""
    ensures Contains(ToLower(ApplyPhrases(s, ctx, phrase)), ToLower(ctx.location))
  {
    var lower := ToLower(s);
    var p1, p2, p3, p4, p5 := CharacterPart(ctx, lower), LocationPart(ctx, lower), ContextStylePart(ctx, lower), MoodPart(ctx, lower), CameraPart(phrase);
    Regroup(p1, p2, p3, p4, p5);
    FieldInResult(s, p1, ctx.location, ", set in ", "", p3 + p4 + p5);
  }

  lemma StyleFieldCovered(s: string, ctx: SceneContext, phrase: Option<string>)
    requires ctx.style != ""
    ensures Contains(ToLower(ApplyPhrases(s, ctx, phrase)), ToLower(ctx.style))
  {
    var lower := ToLower(s);
    var p1, p2, p3, p4, p5 := CharacterPart(ctx, lower), LocationPart(ctx, lower), ContextStylePart(ctx, lower), MoodPart(ctx, lower), CameraPart(phrase);
    Regroup(p1, p2, p3, p4, p5);
    FieldInResult(s, p1 + p2, ctx.style, ", ", "", p4 + p5);
  }

  lemma MoodCovered(s: string, ctx: SceneContext, phrase: Option<string>)
    requires ctx.mood != ""
    ensures Contains(ToLower(ApplyPhrases(s, ctx, phrase)), ToLower(ctx.mood))
  {
    var lower := ToLower(s);
    var p1, p2, p3, p4, p5 := CharacterPart(ctx, lower), LocationPart(ctx, lower), ContextStylePart(ctx, lower), MoodPart(ctx, lower), CameraPart(phrase);
    FieldInResult(s, p1 + p2 + p3, ctx.mood, ", ", " atmosphere", p5);
  }

  /** The style step keeps its input as a prefix and leaves the suffix in the text. */
  lemma SuffixCovered(t: string, suffix: Option<string>)
    ensures StartsWith(WithSuffix(t, suffix), t)
    ensures suffix.Some? ==> Contains(WithSuffix(t, suffix), suffix.value)
  {
    if suffix.Some? && !Contains(t, suffix.value) {
      ContainsMiddle(t, suffix.value, "");
      assert t + suffix.value + "" == WithSuffix(t, suffix);
    }
  }

  /** Appending keeps a prefix and whatever was contained. */
  lemma AppendKeeps(s: string, tail: string, t: string, sub: string)
    requires StartsWith(s, t)
    ensures StartsWith(s + tail, t)
    ensures Contains(s, sub) ==> Contains(s + tail, sub)
  {
    assert (s + tail)[..|t|] == s[..|t|];
    if Contains(s, sub) {
      ContainsExtend(s, tail, sub);
    }
  }

  /** What `enhance` with the context on returns, for any looked-up suffix and phrase. */
  lemma {:induction false} CoversContextWith(prompt: string, suffix: Option<string>, ctx: SceneContext, phrase: Option<string>)
    ensures StartsWith(EnhanceWith(prompt, suffix, true, ctx, phrase), Trim(prompt))
    ensures suffix.Some? ==> Contains(EnhanceWith(prompt, suffix, true, ctx, phrase), suffix.value)
    ensures ctx.character != "" ==> Contains(ToLower(EnhanceWith(prompt, suffix, true, ctx, phrase)), ToLower(ctx.character))
    ensures ctx.location != "" ==> Contains(ToLower(EnhanceWith(prompt, suffix, true, ctx, phrase)), ToLower(ctx.location))
    ensures ctx.style != "" ==> Contains(ToLower(EnhanceWith(prompt, suffix, true, ctx, phrase)), ToLower(ctx.style))
    ensures ctx.mood != "" ==> Contains(ToLower(EnhanceWith(prompt, suffix, true, ctx, phrase)), ToLower(ctx.mood))
  {
    var t := Trim(prompt);
    var s := WithSuffix(t, suffix);
    SuffixCovered(t, suffix);
    var tail := if HasContext(ctx) then ContextTail(ctx, ToLower(s), phrase) else "";
    assert EnhanceWith(prompt, suffix, true, ctx, phrase) == s + tail;
    AppendKeeps(s, tail, t, if suffix.Some? then suffix.value else "");
    if ctx.character != "" { CharacterCovered(s, ctx, phrase); }
    if ctx.location != "" { LocationCovered(s, ctx, phrase); }
    if ctx.style != "" { StyleFieldCovered(s, ctx, phrase); }
    if ctx.mood != "" { MoodCovered(s, ctx, phrase); }
  }

  /** After `enhance` with the context on, the trimmed input is a prefix of the result,
      a known style's suffix occurs in it, and every non-empty descriptive field of the
      context occurs in it ignoring case. */
  lemma EnhanceCoversContext(prompt: string, style: string, ctx: SceneContext)
    ensures StartsWith(Enhance(prompt, style, true, ctx), Trim(prompt))
    ensures StyleSuffix(style).Some? ==> Contains(Enhance(prompt, style, true, ctx), StyleSuffix(style).value)
    ensures ctx.character != "" ==> Contains(ToLower(Enhance(prompt, style, true, ctx)), ToLower(ctx.character))
    ensures ctx.location != "" ==> Contains(ToLower(Enhance(prompt, style, true, ctx)), ToLower(ctx.location))
    ensures ctx.style != "" ==> Contains(ToLower(Enhance(prompt, style, true, ctx)), ToLower(ctx.style))
    ensures ctx.mood != "" ==> Contains(ToLower(Enhance(prompt, style, true, ctx)), ToLower(ctx.mood))
  {
    CoversContextWith(prompt, StyleSuffix(style), ctx, CameraPhrase(ctx.cameraStyle));
  }

  /** A piece `applyContext` or the style step appends: empty, or it starts with a comma. */
  predicate CommaLed(p: string) { p == [] || p[0] == ',' }

  predicate NoLeadingSpace(s: string) { s == [] || !IsSpace(s[0]) }
  predicate NoTrailingSpace(s: string) { s == [] || !IsSpace(s[|s| - 1]) }

  lemma LeadingAfterAppend(a: string, b: string)
    requires NoLeadingSpace(a) && CommaLed(b)
    ensures NoLeadingSpace(a + b)
  {
    if a == [] { assert a + b == b; }
  }

  lemma TrailingAfterAppend(a: string, b: string)
    requires (NoTrailingSpace(a) || b != []) && NoTrailingSpace(b)
    ensures NoTrailingSpace(a + b)
  {
    if b == [] { assert a + b == a; }
  }

  lemma CommaLedConcat(a: string, b: string)
    requires CommaLed(a) && CommaLed(b)
    ensures CommaLed(a + b)
  {
    if a == [] { assert a + b == b; }
  }

  /** The context fields that `applyContext` appends last in their phrase carry no
      trailing white space (the panel trims them when it reads the form). */
  predicate TrimmedFields(ctx: SceneContext) {
    NoTrailingSpace(ctx.character) && NoTrailingSpace(ctx.location) && NoTrailingSpace(ctx.style)
  }

  lemma StyledEdges(prompt: string, suffix: Option<string>)
    requires SuffixShaped(suffix)
    ensures NoLeadingSpace(WithSuffix(Trim(prompt), suffix)) && NoTrailingSpace(WithSuffix(Trim(prompt), suffix))
  {
    var t := Trim(prompt);
    if suffix.Some? && !Contains(t, suffix.value) {
      LeadingAfterAppend(t, suffix.value);
    }
  }

  /** Every phrase `applyContext` may append starts with a comma; those of fields
      without trailing white space also end in a non-space character. */
  lemma PartsShape(ctx: SceneContext, lower: string, phrase: Option<string>)
    requires PhraseShaped(phrase)
    ensures CommaLed(CharacterPart(ctx, lower)) && CommaLed(LocationPart(ctx, lower))
    ensures CommaLed(ContextStylePart(ctx, lower)) && CommaLed(MoodPart(ctx, lower)) && CommaLed(CameraPart(phrase))
    ensures NoTrailingSpace(MoodPart(ctx, lower)) && NoTrailingSpace(CameraPart(phrase))
    ensures TrimmedFields(ctx) ==>
      (NoTrailingSpace(CharacterPart(ctx, lower)) && NoTrailingSpace(LocationPart(ctx, lower))
       && NoTrailingSpace(ContextStylePart(ctx, lower)))
  {
    FieldPartShape(ctx.character, lower, ", featuring ", "");
    FieldPartShape(ctx.location, lower, ", set in ", "");
    FieldPartShape(ctx.style, lower, ", ", "");
    FieldPartShape(ctx.mood, lower, ", ", " atmosphere");
  }

  lemma FieldPartShape(field: string, lower: string, before: string, after: string)
    requires |before| > 0 && before[0] == ','
    ensures CommaLed(FieldPart(field, lower, before, after))
    ensures NoTrailingSpace(after) && (after != [] || NoTrailingSpace(field)) ==> NoTrailingSpace(FieldPart(field, lower, before, after))
  {
    var r := FieldPart(field, lower, before, after);
    if r != [] {
      assert r == before + field + after;
      assert r[0] == before[0];
      if after != [] {
        assert r[|r| - 1] == after[|after| - 1];
      } else if field != [] {
        assert r[|r| - 1] == field[|field| - 1];
      }
    }
  }

  /** The tail `applyContext` appends starts with a comma, and ends in a non-space
      when the fields are trimmed or a camera phrase closes it. */
  lemma {:induction false} TailShape(ctx: SceneContext, lower: string, phrase: Option<string>)
    requires PhraseShaped(phrase)
    ensures CommaLed(ContextTail(ctx, lower, phrase))
    ensures TrimmedFields(ctx) || phrase.Some? ==> NoTrailingSpace(ContextTail(ctx, lower, phrase))
  {
    var p1, p2, p3, p4, p5 := CharacterPart(ctx, lower), LocationPart(ctx, lower), ContextStylePart(ctx, lower), MoodPart(ctx, lower), CameraPart(phrase);
    PartsShape(ctx, lower, phrase);
    CommaLedConcat(p1, p2);
    CommaLedConcat(p1 + p2, p3);
    CommaLedConcat(p1 + p2 + p3, p4);
    CommaLedConcat(p1 + p2 + p3 + p4, p5);
    if phrase.Some? {
      TrailingAfterAppend(p1 + p2 + p3 + p4, p5);
    } else if TrimmedFields(ctx) {
      TrailingAfterAppend(p1, p2);
      TrailingAfterAppend(p1 + p2, p3);
      TrailingAfterAppend(p1 + p2 + p3, p4);
      TrailingAfterAppend(p1 + p2 + p3 + p4, p5);
    }
  }

  /** `enhance` with the context on yields a string with no white space at its start;
      at its end too when the fields are trimmed or a camera phrase closes it. */
  lemma {:induction false} EdgesWith(prompt: string, suffix: Option<string>, ctx: SceneContext, phrase: Option<string>)
    requires SuffixShaped(suffix) && PhraseShaped(phrase)
    requires TrimmedFields(ctx) || phrase.Some?
    ensures Trim(EnhanceWith(prompt, suffix, true, ctx, phrase)) == EnhanceWith(prompt, suffix, true, ctx, phrase)
  {
    var s := WithSuffix(Trim(prompt), suffix);
    StyledEdges(prompt, suffix);
    if HasContext(ctx) {
      EdgesWithTail(s, ctx, phrase);
    } else {
      TrimNoop(s);
    }
  }

  lemma EdgesWithTail(s: string, ctx: SceneContext, phrase: Option<string>)
    requires NoLeadingSpace(s) && NoTrailingSpace(s) && PhraseShaped(phrase)
    requires TrimmedFields(ctx) || phrase.Some?
    ensures Trim(ApplyPhrases(s, ctx, phrase)) == ApplyPhrases(s, ctx, phrase)
  {
    TailShape(ctx, ToLower(s), phrase);
    JoinTrimmed(s, ContextTail(ctx, ToLower(s), phrase));
  }

  /** A text without white space at its ends followed by a comma-led tail that ends in
      a non-space is left as it is by trimming. */
  lemma JoinTrimmed(s: string, tail: string)
    requires NoLeadingSpace(s) && NoTrailingSpace(s) && CommaLed(tail) && NoTrailingSpace(tail)
    ensures Trim(s + tail) == s + tail
  {
    LeadingAfterAppend(s, tail);
    TrailingAfterAppend(s, tail);
    TrimNoop(s + tail);
  }

  /** With every non-empty field already found in `lower`, and no camera phrase,
      `applyContext` has nothing to append. */
  lemma TailEmptyWhenCovered(ctx: SceneContext, lower: string)
    requires ctx.character != "" ==> Contains(lower, ToLower(ctx.character))
    requires ctx.location != "" ==> Contains(lower, ToLower(ctx.location))
    requires ctx.style != "" ==> Contains(lower, ToLower(ctx.style))
    requires ctx.mood != "" ==> Contains(lower, ToLower(ctx.mood))
    ensures ContextTail(ctx, lower, None) == ""
  {
  }

  /** Re-enhancing is a no-op when no camera phrase applies and the fields carry no
      trailing white space: the suffix and every field are found in the text. */
  lemma {:induction false} IdempotentWith(prompt: string, suffix: Option<string>, ctx: SceneContext)
    requires SuffixShaped(suffix) && TrimmedFields(ctx)
    ensures EnhanceWith(EnhanceWith(prompt, suffix, true, ctx, None), suffix, true, ctx, None)
         == EnhanceWith(prompt, suffix, true, ctx, None)
  {
    EdgesWith(prompt, suffix, ctx, None);
    CoversContextWith(prompt, suffix, ctx, None);
    FixedWhenCovered(EnhanceWith(prompt, suffix, true, ctx, None), suffix, ctx);
  }

  /** A trimmed text that already holds the suffix and, ignoring case, every non-empty
      field is left as it is when no camera phrase applies. */
  lemma FixedWhenCovered(e: string, suffix: Option<string>, ctx: SceneContext)
    requires Trim(e) == e
    requires suffix.Some? ==> Contains(e, suffix.value)
    requires ctx.character != "" ==> Contains(ToLower(e), ToLower(ctx.character))
    requires ctx.location != "" ==> Contains(ToLower(e), ToLower(ctx.location))
    requires ctx.style != "" ==> Contains(ToLower(e), ToLower(ctx.style))
    requires ctx.mood != "" ==> Contains(ToLower(e), ToLower(ctx.mood))
    ensures EnhanceWith(e, suffix, true, ctx, None) == e
  {
    assert WithSuffix(Trim(e), suffix) == e;
    if HasContext(ctx) {
      TailEmptyWhenCovered(ctx, ToLower(e));
      assert ApplyPhrases(e, ctx, None) == e + "";
    }
  }

  /** Re-enhancing is a no-op when the camera key names no camera and the fields
      carry no trailing white space. */
  lemma EnhanceIdempotentWithoutCamera(prompt: string, style: string, ctx: SceneContext)
    requires CameraPhrase(ctx.cameraStyle).None?
    requires TrimmedFields(ctx)
    ensures Enhance(Enhance(prompt, style, true, ctx), style, true, ctx) == Enhance(prompt, style, true, ctx)
  {
    TablesShaped(style, ctx.cameraStyle);
    IdempotentWith(prompt, StyleSuffix(style), ctx);
  }

  /** With a known camera style, `enhance` is not idempotent: the camera phrase is
      appended again on every call, so re-enhancing always makes the text longer. */
  lemma {:induction false} EnhanceGrowsWithCamera(prompt: string, style: string, ctx: SceneContext)
    requires CameraPhrase(ctx.cameraStyle).Some?
    ensures |Enhance(Enhance(prompt, style, true, ctx), style, true, ctx)| > |Enhance(prompt, style, true, ctx)|
  {
    var suffix, phrase := StyleSuffix(style), CameraPhrase(ctx.cameraStyle);
    TablesShaped(style, ctx.cameraStyle);
    var e := EnhanceWith(prompt, suffix, true, ctx, phrase);
    EdgesWith(prompt, suffix, ctx, phrase);
    var s := WithSuffix(Trim(e), suffix);
    assert |s| >= |e|;
    assert HasContext(ctx);
    assert |EnhanceWith(e, suffix, true, ctx, phrase)| >= |s| + |CameraPart(phrase)|;
  }

  // ---------------------------------------------------------------------------
  // optimize

  /** The number of white space characters at the start of `s`. */
  function SpaceRun(s: string): (k: nat)
    ensures k <= |s|
    ensures forall j :: 0 <= j < k ==> IsSpace(s[j])
    ensures k == |s| || !IsSpace(s[k])
  {
    |s| - |TrimStart(s)|
  }

  /** `s.replace(/,\s*,/g, ',')`: scanning left to right, a comma, any white space and a
      second comma become one comma; the scan resumes after the second comma. */
  function CollapseCommaPairs(s: string): (r: string)
    ensures |r| <= |s|
    ensures r == [] <==> s == []
    ensures r != [] ==> (r[0] == ',' <==> s[0] == ',') && (r[0] != ',' ==> r[0] == s[0])
    decreases |s|
  {
    if |s| == 0 then ""
    else if PairInFront(s) then
      "," + CollapseCommaPairs(s[2 + SpaceRun(s[1..])..])
    else [s[0]] + CollapseCommaPairs(s[1..])
  }

  /** `s[i..j + 1]` is a match of `/,\s*,/`. */
  predicate PairAt(s: string, i: nat, j: nat) {
    i < j < |s| && s[i] == ',' && s[j] == ',' && AllSpace(s[i + 1..j])
  }

  predicate HasCommaPair(s: string) {
    exists i: nat, j: nat | i < j < |s| :: PairAt(s, i, j)
  }

  /** The text without its commas and white space. */
  function Words(s: string): string
    decreases |s|
  {
    if |s| == 0 then ""
    else if s[0] == ',' || IsSpace(s[0]) then Words(s[1..])
    else [s[0]] + Words(s[1..])
  }

  lemma {:induction false} WordsAppend(a: string, b: string)
    ensures Words(a + b) == Words(a) + Words(b)
    decreases |a|
  {
    if |a| > 0 {
      WordsAppend(a[1..], b);
      assert (a + b)[1..] == a[1..] + b;
    } else {
      assert a + b == b;
    }
  }

  lemma {:induction false} WordsNone(s: string)
    requires forall j :: 0 <= j < |s| ==> s[j] == ',' || IsSpace(s[j])
    ensures Words(s) == ""
    decreases |s|
  {
    if |s| > 0 {
      WordsNone(s[1..]);
    }
  }

  /** At a match of `/,\s*,/` the white space run ends right before the second comma. */
  lemma PairRun(s: string, j: nat)
    requires PairAt(s, 0, j)
    ensures 1 + SpaceRun(s[1..]) == j
  {
    assert forall m :: 1 <= m < j ==> s[m] == s[1..j][m - 1];
    assert !IsSpace(s[1..][j - 1]);
  }

  /** Matches after the first character are the matches of the rest, shifted by one. */
  lemma PairShift(s: string, i: nat, j: nat)
    requires 0 < |s|
    ensures PairAt(s, i + 1, j + 1) <==> PairAt(s[1..], i, j)
  {
    if i < j < |s| - 1 {
      assert s[1..][i + 1..j] == s[i + 2..j + 1];
    }
  }

  /** The branch that rewrites a match at the front. */
  predicate PairInFront(s: string) {
    |s| > 0 && s[0] == ',' && 1 + SpaceRun(s[1..]) < |s| && s[1 + SpaceRun(s[1..])] == ','
  }

  /** A match at the front is a match. */
  lemma FrontPair(s: string)
    requires PairInFront(s)
    ensures HasCommaPair(s)
  {
    var k := SpaceRun(s[1..]);
    assert AllSpace(s[1..1 + k]) by {
      assert forall m :: 0 <= m < k ==> s[1..1 + k][m] == s[1..][m];
    }
    assert PairAt(s, 0, 1 + k);
  }

  /** Without a match at the front, the text holds a match exactly when its rest does. */
  lemma PairInRest(s: string)
    requires |s| > 0 && !PairInFront(s)
    ensures HasCommaPair(s) <==> HasCommaPair(s[1..])
  {
    if HasCommaPair(s) {
      var i: nat, j: nat :| i < j < |s| && PairAt(s, i, j);
      if i == 0 {
        PairRun(s, j);
        assert false;
      }
      PairShift(s, i - 1, j - 1);
    }
    if HasCommaPair(s[1..]) {
      var i: nat, j: nat :| i < j < |s| - 1 && PairAt(s[1..], i, j);
      PairShift(s, i, j);
    }
  }

  /** The rewrite changes the text exactly when it holds a `,\s*,` match: without one
      the text is returned as it is, and with one it gets shorter. */
  lemma {:induction false} CommaPairsFixed(s: string)
    ensures CollapseCommaPairs(s) == s <==> !HasCommaPair(s)
    ensures HasCommaPair(s) ==> |CollapseCommaPairs(s)| < |s|
    decreases |s|
  {
    if |s| > 0 {
      if PairInFront(s) {
        FrontPair(s);
      } else {
        PairInRest(s);
        CommaPairsFixed(s[1..]);
        var r := CollapseCommaPairs(s[1..]);
        assert CollapseCommaPairs(s) == [s[0]] + r;
        assert s == [s[0]] + s[1..];
        assert [s[0]] + r == s <==> r == s[1..];
      }
    }
  }

  /** A match at the front holds no word characters. */
  lemma WordsDropPair(s: string)
    requires PairInFront(s)
    ensures Words(s) == Words(s[2 + SpaceRun(s[1..])..])
  {
    var k := SpaceRun(s[1..]);
    var head := s[..2 + k];
    forall m | 0 <= m < |head| ensures head[m] == ',' || IsSpace(head[m]) {
      if 1 <= m < 1 + k {
        assert head[m] == s[1..][m - 1];
      }
    }
    WordsNone(head);
    assert s == head + s[2 + k..];
    WordsAppend(head, s[2 + k..]);
  }

  /** The rewrite removes only commas and white space: every other character is kept, in
      order. */
  lemma {:induction false} CommaPairsKeepsWords(s: string)
    ensures Words(CollapseCommaPairs(s)) == Words(s)
    decreases |s|
  {
    if |s| > 0 {
      if PairInFront(s) {
        var rest := s[2 + SpaceRun(s[1..])..];
        CommaPairsKeepsWords(rest);
        assert CollapseCommaPairs(s) == "," + CollapseCommaPairs(rest);
        assert ("," + CollapseCommaPairs(rest))[1..] == CollapseCommaPairs(rest);
        WordsDropPair(s);
      } else {
        CommaPairsKeepsWords(s[1..]);
        assert ([s[0]] + CollapseCommaPairs(s[1..]))[1..] == CollapseCommaPairs(s[1..]);
      }
    }
  }

  /** No two neighbouring characters are both white space. */
  predicate NoDoubleSpace(s: string) {
    forall i :: 0 <= i < |s| - 1 ==> !(IsSpace(s[i]) && IsSpace(s[i + 1]))
  }

  /** The only white space character left is the plain space. */
  predicate OnlyPlainSpaces(s: string) {
    forall i :: 0 <= i < |s| ==> IsSpace(s[i]) ==> s[i] == ' '
  }

  /** `s.replace(/\s+/g, ' ')`: each maximal run of white space becomes one space. */
  function CollapseSpaces(s: string): (r: string)
    ensures NoDoubleSpace(r) && OnlyPlainSpaces(r)
    ensures r == [] <==> s == []
    ensures r != [] ==> (IsSpace(r[0]) <==> IsSpace(s[0])) && (!IsSpace(s[0]) ==> r[0] == s[0])
    decreases |s|
  {
    if |s| == 0 then ""
    else if IsSpace(s[0]) then
      var rest := CollapseSpaces(TrimStart(s[1..]));
      ConsShaped(' ', rest);
      " " + rest
    else
      var rest := CollapseSpaces(s[1..]);
      ConsShaped(s[0], rest);
      [s[0]] + rest
  }

  /** Putting a character in front keeps the shape of `CollapseSpaces`' result when it is
      not white space, or a plain space before a result that does not start with one. */
  lemma ConsShaped(c: char, r: string)
    requires NoDoubleSpace(r) && OnlyPlainSpaces(r)
    requires IsSpace(c) ==> c == ' ' && (r == [] || !IsSpace(r[0]))
    ensures NoDoubleSpace([c] + r) && OnlyPlainSpaces([c] + r)
  {
    var t := [c] + r;
    forall i | 0 <= i < |t| - 1 ensures !(IsSpace(t[i]) && IsSpace(t[i + 1])) {
      if i > 0 {
        assert t[i] == r[i - 1] && t[i + 1] == r[i];
      }
    }
    forall i | 0 <= i < |t| && IsSpace(t[i]) ensures t[i] == ' ' {
      if i > 0 {
        assert t[i] == r[i - 1];
      }
    }
  }

  /** `s.charAt(0).toUpperCase() + s.slice(1)` */
  function Capitalize(s: string): (r: string)
    ensures |r| == |s|
    ensures r != [] ==> r[0] == UpperChar(s[0]) && r[1..] == s[1..]
  {
    if |s| == 0 then "" else [UpperChar(s[0])] + s[1..]
  }

  predicate AllSpace(s: string) {
    forall j :: 0 <= j < |s| ==> IsSpace(s[j])
  }

  /** `s.replace(/,\s*$/, '')`: cut at the first comma followed only by white space. */
  function StripTrailingComma(s: string): (r: string)
    ensures StartsWith(s, r)
  {
    StripFrom(s, 0)
  }

  function StripFrom(s: string, i: nat): (r: string)
    ensures StartsWith(s, r)
    ensures r == s || (exists k | i <= k < |s| :: r == s[..k] && s[k] == ',' && AllSpace(s[k + 1..]))
    ensures forall k :: i <= k < |s| && s[k] == ',' && AllSpace(s[k + 1..]) ==> r == s[..k]
    decreases |s| - i
  {
    if i >= |s| then s
    else if s[i] == ',' && AllSpace(s[i + 1..]) then s[..i]
    else StripFrom(s, i + 1)
  }

  /** `SmartEnhancer.optimize(prompt)` */
  function Optimize(prompt: string): string {
    StripTrailingComma(Capitalize(CollapseSpaces(CollapseCommaPairs(Trim(prompt)))))
  }

  /** What optimize guarantees: no two neighbouring white space characters, no white
      space other than the plain space, and a first character that is neither white
      space nor a lower-case ASCII letter. */
  lemma OptimizeShape(prompt: string)
    ensures NoDoubleSpace(Optimize(prompt)) && OnlyPlainSpaces(Optimize(prompt))
    ensures Optimize(prompt) != [] ==> !IsSpace(Optimize(prompt)[0]) && !IsLowerAscii(Optimize(prompt)[0])
  {
    var t := Trim(prompt);
    var a := CollapseCommaPairs(t);
    var b := CollapseSpaces(a);
    var c := Capitalize(b);
    var r := StripTrailingComma(c);
    assert r == c[..|r|];
    assert forall i :: 0 <= i < |c| ==> IsSpace(c[i]) == IsSpace(b[i]);
    assert forall i :: 1 <= i < |c| ==> c[i] == b[i];
    if r != [] {
      assert r[0] == c[0] == UpperChar(b[0]);
      assert !IsSpace(t[0]);
    }
  }

  lemma TrimOnTriple()
    ensures Trim("a,,,") == "a,,,"
  {
    var s: string := "a,,,";
    assert !IsSpace(s[0]) && !IsSpace(s[3]);
    TrimNoop(s);
  }

  lemma CommaPairsKeep(c: char, rest: string)
    requires c != ','
    ensures CollapseCommaPairs([c] + rest) == [c] + CollapseCommaPairs(rest)
  {
    assert ([c] + rest)[1..] == rest;
  }

  lemma CommaPairsAtPair(s: string)
    requires |s| >= 2 && s[0] == ',' && s[1] == ','
    ensures CollapseCommaPairs(s) == "," + CollapseCommaPairs(s[2..])
  {
    var t := s[1..];
    assert t[0] == ',' && !IsSpace(t[0]);
    assert SpaceRun(t) == 0;
  }

  lemma CommaPairsMerge(rest: string)
    ensures CollapseCommaPairs([',', ','] + rest) == [','] + CollapseCommaPairs(rest)
  {
    var s := [',', ','] + rest;
    CommaPairsAtPair(s);
    assert s[2..] == rest;
  }

  lemma CommaPairsLone()
    ensures CollapseCommaPairs(",") == ","
  {
    var s: string := ",";
    assert s[1..] == "";
  }

  lemma CommaPairsOnTriple()
    ensures CollapseCommaPairs("a,,,") == "a,,"
  {
    var s: string := "a,,,";
    assert s == ['a'] + ([',', ','] + [',']);
    CommaPairsKeep('a', [',', ','] + [',']);
    CommaPairsMerge([',']);
    CommaPairsLone();
  }

  lemma SpacesOnTriple()
    ensures CollapseSpaces("a,,") == "a,,"
  {
    assert CollapseSpaces("") == "";
    assert CollapseSpaces(",") == ",";
    assert CollapseSpaces(",,") == ",,";
  }

  lemma CapitalizeOnTriple()
    ensures Capitalize("a,,") == "A,,"
  {
    var c: string := "a,,";
    assert UpperChar(c[0]) == 'A';
  }

  lemma StripOnTriple()
    ensures StripTrailingComma("A,,") == "A,"
  {
    var s: string := "A,,";
    assert !AllSpace(s[2..]) by { assert s[2..][0] == ','; }
    assert AllSpace(s[3..]);
    assert StripFrom(s, 1) == StripFrom(s, 2) == s[..2];
  }

  /** Only one trailing comma is stripped and `/,\s*,/g` does not overlap its matches,
      so an optimised prompt can still end in a comma. */
  lemma OptimizeMayEndInComma()
    ensures Optimize("a,,,") == "A,"
  {
    TrimOnTriple();
    CommaPairsOnTriple();
    SpacesOnTriple();
    CapitalizeOnTriple();
    StripOnTriple();
  }

  // ---------------------------------------------------------------------------
  // generateVariations

  /** `generateVariations(basePrompt, count)`: variation i pairs the camera phrase
      i mod 7 with the time of day i mod 5. */
  function GenerateVariations(base: string, count: int): (r: seq<string>)
    ensures |r| == if count > 0 then count else 0
  {
    seq(if count > 0 then count else 0,
        i requires 0 <= i => base + ", " + Phrase(CameraOrder[i % 7]) + ", " + TimeOfDay(i % 5))
  }

  /** Asking for fewer variations gives a prefix of asking for more. */
  lemma VariationsPrefix(base: string, n: int, m: int)
    requires n <= m
    ensures GenerateVariations(base, n) == GenerateVariations(base, m)[..|GenerateVariations(base, n)|]
  {
  }

  /** The variations repeat with period 35 = 7 * 5. */
  lemma VariationsPeriodic(base: string, count: int, i: nat)
    requires i + 35 < count
    ensures GenerateVariations(base, count)[i] == GenerateVariations(base, count)[i + 35]
  {
    assert (i + 35) % 7 == i % 7;
    assert (i + 35) % 5 == i % 5;
  }

  lemma InitialsDistinct(a: nat, b: nat)
    requires a < 7 && b < 7 && Initials(CameraOrder[a]) == Initials(CameraOrder[b])
    ensures a == b
  {
  }

  lemma ResiduesDetermine(i: nat, j: nat)
    requires i < 35 && j < 35
    requires i % 7 == j % 7 && i % 5 == j % 5
    ensures i == j
  {
    if i < j {
      DifferenceNotCommon(i, j);
    } else if j < i {
      DifferenceNotCommon(j, i);
    }
  }

  /** Two numbers below 35 that differ cannot agree modulo both 5 and 7. */
  lemma DifferenceNotCommon(i: nat, j: nat)
    requires i < j < 35 && i % 5 == j % 5
    ensures i % 7 != j % 7
  {
    var q := j / 5 - i / 5;
    assert j - i == 5 * q;
    assert 0 < q < 7;
    assert j == i + 5 * q;
  }

  /** Within one period the variations are pairwise different. */
  lemma {:induction false} VariationsDistinct(base: string, count: int, i: nat, j: nat)
    requires i < j < count && j < 35
    ensures GenerateVariations(base, count)[i] != GenerateVariations(base, count)[j]
  {
    var r := GenerateVariations(base, count);
    var pre := base + ", ";
    var ci, cj := Phrase(CameraOrder[i % 7]), Phrase(CameraOrder[j % 7]);
    var ti, tj := TimeOfDay(i % 5), TimeOfDay(j % 5);
    assert r[i] == pre + ci + ", " + ti;
    assert r[j] == pre + cj + ", " + tj;
    if r[i] == r[j] {
      assert r[i][|pre|] == ci[0] && r[i][|pre| + 1] == ci[1];
      assert r[j][|pre|] == cj[0] && r[j][|pre| + 1] == cj[1];
      InitialsDistinct(i % 7, j % 7);
      assert ci == cj;
      assert r[i][|pre| + |ci| + 2] == ti[0];
      assert r[j][|pre| + |ci| + 2] == tj[0];
      assert i % 5 == j % 5;
      ResiduesDetermine(i, j);
      assert false;
    }
  }
}
