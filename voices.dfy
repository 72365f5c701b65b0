/** The voice box's catalog rules: which synthesis voices are offered, the
    option list built from them, and how a selected option is resolved back
    to a voice. */
module Voices {
  import opened Browser

  /** `s.replace(from, to)` with one-character strings: only the first
      occurrence of `from` is replaced. */
  function ReplaceFirst(s: string, from: char, to: char): (r: string)
    ensures |r| == |s|
    ensures forall k :: 0 <= k < |s| ==> r[k] == (if s[k] == from && from !in s[..k] then to else s[k])
  {
    if s == [] then []
    else if s[0] == from then [to] + s[1..]
    else [s[0]] + ReplaceFirst(s[1..], from, to)
  }

  /** `s.includes(part)`: `part` occurs in `s` at some position. */
  predicate Contains(s: string, part: string)
  {
    exists i :: 0 <= i <= |s| && part <= s[i..]
  }

  /** The voice's language tag with its first underscore turned into a dash. */
  function NormalizedLang(v: Voice): string
  {
    ReplaceFirst(v.lang, '_', '-')
  }

  /** The region filter: the normalized tag mentions United States or Indian
      English, Indian Hindi or Japanese. */
  predicate InRegion(v: Voice)
  {
    var lang := NormalizedLang(v);
    Contains(lang, "en-US") || Contains(lang, "en-IN") || Contains(lang, "hi-IN") || Contains(lang, "ja-JP")
  }

  /** The catalog filtered to the region voices, in catalog order. */
  function RegionVoices(all: seq<Voice>): (r: seq<Voice>)
    ensures |r| <= |all|
    ensures forall v :: v in r <==> v in all && InRegion(v)
  {
    if all == [] then []
    else (if InRegion(all[0]) then [all[0]] else []) + RegionVoices(all[1..])
  }

  /** The fallback case: the catalog has voices but none of them is a region
      voice. */
  predicate Fallback(all: seq<Voice>)
  {
    RegionVoices(all) == [] && all != []
  }

  /** The voices offered: the region voices, or the whole catalog when it is
      non-empty and has none. */
  function Catalog(all: seq<Voice>): (voices: seq<Voice>)
    ensures voices == [] <==> all == []
    ensures forall v :: v in voices ==> v in all
    ensures !Fallback(all) ==> voices == RegionVoices(all)
    ensures Fallback(all) ==> voices == all && forall v :: v in all ==> !InRegion(v)
  {
    if Fallback(all) then all else RegionVoices(all)
  }

  /** An entry of the voice menu. Only voice entries carry a name and a
      language tag. */
  datatype VoiceOption =
    | Placeholder
    | NoRegionAdvisory
    | VoiceEntry(text: string, lang: string, name: string)

  function EntryFor(v: Voice): VoiceOption
  {
    VoiceEntry(v.name + " (" + v.lang + ")", v.lang, v.name)
  }

  /** The `data-name` attribute of an option; the placeholder and the
      advisory have none. */
  function DataName(opt: VoiceOption): Option<string>
  {
    if opt.VoiceEntry? then Some(opt.name) else None
  }

  function Entries(voices: seq<Voice>): (r: seq<VoiceOption>)
    ensures |r| == |voices| && forall k :: 0 <= k < |voices| ==> r[k] == EntryFor(voices[k])
  {
    seq(|voices|, k requires 0 <= k < |voices| => EntryFor(voices[k]))
  }

  /** The voice menu for a catalog: the placeholder, the advisory only in the
      fallback case, then one entry per offered voice in order. */
  function OptionList(all: seq<Voice>): (opts: seq<VoiceOption>)
    ensures |opts| == 1 + (if Fallback(all) then 1 else 0) + |Catalog(all)|
    ensures opts[0] == Placeholder
    ensures NoRegionAdvisory in opts <==> Fallback(all)
    ensures Fallback(all) ==> opts[1] == NoRegionAdvisory
    ensures forall k :: 0 <= k < |Catalog(all)| ==>
              opts[|opts| - |Catalog(all)| + k] == EntryFor(Catalog(all)[k])
  {
    [Placeholder] + (if Fallback(all) then [NoRegionAdvisory] else []) + Entries(Catalog(all))
  }

  /** The index of the first voice whose name equals `name`, if any. A
      missing name matches no voice. */
  function FirstNamed(voices: seq<Voice>, name: Option<string>): (r: Option<nat>)
    ensures r.Some? ==> r.value < |voices| && Some(voices[r.value].name) == name
    ensures r.Some? ==> forall j :: 0 <= j < r.value ==> Some(voices[j].name) != name
    ensures r.None? ==> forall j :: 0 <= j < |voices| ==> Some(voices[j].name) != name
  {
    if voices == [] then None
    else if Some(voices[0].name) == name then Some(0)
    else match FirstNamed(voices[1..], name)
      case None => None
      case Some(i) => Some(i + 1)
  }

  /** The voice the utterance gets for a selected name, if any. */
  function Chosen(voices: seq<Voice>, name: Option<string>): Option<Voice>
  {
    match FirstNamed(voices, name)
    case None => None
    case Some(i) => Some(voices[i])
  }

  /** The lookup loop of the speak handler: the first voice with the selected
      name, found by a forward scan that stops at the first match. */
  method ChooseVoice(voices: seq<Voice>, name: Option<string>) returns (chosen: Option<Voice>)
    ensures chosen == Chosen(voices, name)
  {
    chosen := None;
    var i := 0;
    while i < |voices|
      invariant 0 <= i <= |voices|
      invariant forall j :: 0 <= j < i ==> Some(voices[j].name) != name
      invariant chosen == None
    {
      if Some(voices[i].name) == name {
        chosen := Some(voices[i]);
        break;
      }
      i := i + 1;
    }
  }

  /** The filter keeps catalog order: filtering a concatenation is
      concatenating the filtered parts. */
  lemma {:induction false} RegionVoicesConcat(a: seq<Voice>, b: seq<Voice>)
    ensures RegionVoices(a + b) == RegionVoices(a) + RegionVoices(b)
    decreases |a|
  {
    if a == [] {
      assert a + b == b;
    } else {
      assert (a + b)[0] == a[0] && (a + b)[1..] == a[1..] + b;
      RegionVoicesConcat(a[1..], b);
    }
  }

  /** The filter changes nothing exactly when every voice is a region voice. */
  lemma {:induction false} RegionVoicesIdentity(all: seq<Voice>)
    ensures RegionVoices(all) == all <==> forall k :: 0 <= k < |all| ==> InRegion(all[k])
    decreases |all|
  {
    if all != [] {
      RegionVoicesIdentity(all[1..]);
      if !InRegion(all[0]) {
        assert all[0] !in RegionVoices(all);
      }
    }
  }

  /** Selecting the menu entry of a voice picks a voice of that name no later
      in the catalog, and that very voice when names are distinct. */
  lemma SelectingAnEntry(voices: seq<Voice>, k: nat)
    requires k < |voices|
    ensures FirstNamed(voices, DataName(EntryFor(voices[k]))).Some?
    ensures FirstNamed(voices, DataName(EntryFor(voices[k]))).value <= k
    ensures (forall i, j :: 0 <= i < j < |voices| ==> voices[i].name != voices[j].name) ==>
              Chosen(voices, DataName(EntryFor(voices[k]))) == Some(voices[k])
  {
  }

  /** Region tags written with an underscore are recognised. */
  lemma UnderscoreTagsMatch(name: string)
    ensures InRegion(Voice(name, "en_US")) && InRegion(Voice(name, "hi_IN"))
  {
    assert NormalizedLang(Voice(name, "en_US")) == "en-US";
    assert "en-US" <= NormalizedLang(Voice(name, "en_US"))[0..];
    assert NormalizedLang(Voice(name, "hi_IN")) == "hi-IN";
    assert "hi-IN" <= NormalizedLang(Voice(name, "hi_IN"))[0..];
  }
  /** A tag outside the four regions is filtered out, with or without the
      underscore. */
  lemma {:induction false} BritishEnglishIsNotARegionVoice(name: string)
    ensures !InRegion(Voice(name, "en_GB"))
  {
    var lang := NormalizedLang(Voice(name, "en_GB"));
    assert lang == "en-GB";
    forall i | 0 <= i <= |lang|
      ensures !("en-US" <= lang[i..]) && !("en-IN" <= lang[i..])
      ensures !("hi-IN" <= lang[i..]) && !("ja-JP" <= lang[i..])
    {
      if i == 0 {
        assert lang[0..][0] == 'e' && lang[0..][3] == 'G';
      } else {
        assert |lang[i..]| < 5;
      }
    }
  }

  /** A catalog with no region voice falls back to all of it, behind the
      advisory entry. */
  lemma BritishOnlyCatalogFallsBack(name: string)
    ensures Catalog([Voice(name, "en_GB")]) == [Voice(name, "en_GB")]
    ensures OptionList([Voice(name, "en_GB")]) == [Placeholder, NoRegionAdvisory, EntryFor(Voice(name, "en_GB"))]
  {
    var v := Voice(name, "en_GB");
    BritishEnglishIsNotARegionVoice(name);
    assert [v][1..] == [];
    assert RegionVoices([v]) == [] + RegionVoices([]);
    assert Fallback([v]);
    assert Entries([v]) == [EntryFor(v)];
  }
}
