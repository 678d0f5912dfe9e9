/**
 * The effective instruction: the free-text prompt joined with the selected
 * filter preset's fragment, and the rule that swaps the default prompt when
 * the interface language changes.
 */
module Prompt {

  import opened Wrappers
  import opened Seqs
  import opened Text

  /** A filter preset. Only its id and its instruction fragment take part in the batch logic. */
  datatype Preset = Preset(id: string, fragment: string)

  /** `FILTER_PRESETS.find(f => f.id === id)`: the first preset with that id, if any. */
  function FindPreset(presets: seq<Preset>, id: string): (r: Option<Preset>)
    ensures r.None? <==> forall k :: 0 <= k < |presets| ==> presets[k].id != id
    ensures forall k :: (0 <= k < |presets| && presets[k].id == id
                         && forall j :: 0 <= j < k ==> presets[j].id != id) ==> r == Some(presets[k])
  {
    var k := FirstIndex(presets, (p: Preset) => p.id == id);
    if k < |presets| then Some(presets[k]) else None
  }

  /** `filter?.prompt || ''`: the selected preset's fragment, or empty when no preset has that id. */
  function Fragment(presets: seq<Preset>, id: string): string
  {
    match FindPreset(presets, id)
    case Some(p) => p.fragment
    case None => ""
  }

  /** `` `${global} ${fragment}`.trim() `` */
  function Compose(global: string, fragment: string): (r: string)
    ensures IsTrimmed(r)
  {
    Trim(global + " " + fragment)
  }

  /** The combined prompt new items receive and a sweep sends (App.tsx:449-450, App.tsx:492-493). */
  function CombinedPrompt(global: string, presets: seq<Preset>, selectedId: string): string
  {
    Compose(global, Fragment(presets, selectedId))
  }

  /** An empty fragment adds nothing: the result is the trimmed free text. */
  lemma ComposeEmptyFragment(global: string)
    ensures Compose(global, "") == Trim(global)
  {
    var space: string := " ";
    assert global + space + "" == global + space;
    assert IsWhitespace(space[0]) && space[1..] == [];
    assert TrimStart(space) == [] && TrimEnd(space) == [];
    TrimStartConcat(global, space);
    if TrimStart(global) != [] {
      TrimEndConcat(TrimStart(global), space);
    }
  }

  /** An empty free text leaves the trimmed fragment. */
  lemma ComposeEmptyGlobal(fragment: string)
    ensures Compose("", fragment) == Trim(fragment)
  {
    assert "" + " " + fragment == " " + fragment;
    TrimStartConcat(" ", fragment);
  }

  /** Two trimmed, non-empty parts are joined by exactly one space. */
  lemma ComposeTrimmedParts(global: string, fragment: string)
    requires global != "" && fragment != ""
    requires IsTrimmed(global) && IsTrimmed(fragment)
    ensures Compose(global, fragment) == global + " " + fragment
  {
    var s := global + " " + fragment;
    assert s[0] == global[0] && s[|s| - 1] == fragment[|fragment| - 1];
    assert IsTrimmed(s);
  }

  /** A selected id that names no preset, or names one with an empty fragment, gives the trimmed free text. */
  lemma CombinedWithoutFragment(global: string, presets: seq<Preset>, selectedId: string)
    requires (forall k :: 0 <= k < |presets| ==> presets[k].id != selectedId)
             || (FindPreset(presets, selectedId).Some? && FindPreset(presets, selectedId).value.fragment == "")
    ensures CombinedPrompt(global, presets, selectedId) == Trim(global)
  {
    ComposeEmptyFragment(global);
  }

  datatype Language = En | Zh

  /** The language the toggle switches to. */
  function Other(lang: Language): Language
  {
    if lang == En then Zh else En
  }

  const EnglishDefault: string := "Remove the background and keep only the subject sharp and clear."
  const ChineseDefault: string := "移除背景，仅保留主体并使其清晰锐利。"

  /** `TRANSLATIONS[lang].defaultPrompt` */
  function DefaultPrompt(lang: Language): string
  {
    if lang == En then EnglishDefault else ChineseDefault
  }

  lemma DefaultsDiffer()
    ensures DefaultPrompt(En) != DefaultPrompt(Zh)
  {
    assert |EnglishDefault| != |ChineseDefault|;
  }

  /**
   * The prompt after the language became `lang`: the previous language's
   * default is replaced by the new language's default, any other text is kept.
   */
  function PromptAfterSwitch(prompt: string, lang: Language): (r: string)
    ensures r == prompt || r == DefaultPrompt(lang)
  {
    if prompt == DefaultPrompt(Other(lang)) then DefaultPrompt(lang) else prompt
  }

  /** A prompt that is the current language's default follows the language. */
  lemma SwitchFollowsDefault(lang: Language)
    ensures PromptAfterSwitch(DefaultPrompt(lang), Other(lang)) == DefaultPrompt(Other(lang))
  {
  }

  /** A prompt that is not the previous language's default is never touched. */
  lemma SwitchKeepsOwnText(prompt: string, lang: Language)
    requires prompt != DefaultPrompt(Other(lang))
    ensures PromptAfterSwitch(prompt, lang) == prompt
  {
  }

  /**
   * Toggling the language away from `lang` and back restores the prompt
   * exactly when the prompt was not the other language's default.
   */
  lemma SwitchTwice(prompt: string, lang: Language)
    ensures PromptAfterSwitch(PromptAfterSwitch(prompt, Other(lang)), lang) == prompt
            <==> prompt != DefaultPrompt(Other(lang))
  {
    DefaultsDiffer();
    assert Other(Other(lang)) == lang;
    assert DefaultPrompt(lang) != DefaultPrompt(Other(lang));
  }
}
