/** Language negotiation and the translation lookup
    (src/i18n/index.tsx).  The browser objects are parameters: `None` for a
    missing `window` or `navigator`, the stored language as the answer of
    `localStorage.getItem`, and the two dictionaries as maps from key to
    text. */
module I18n {
  import opened Types

  const EN: string := "en"
  const ZH: string := "zh"

  /** `navigator.languages` (absent in some browsers) and `navigator.language`. */
  datatype Navigator = Navigator(languages: Option<seq<string>>, language: string)

  /** `window`, reduced to what `localStorage.getItem(STORAGE_KEY)` answers. */
  datatype Window = Window(stored: Option<string>)

  /** `toLowerCase` on the ASCII letters. */
  function LowerChar(c: char): char
  {
    if 'A' <= c <= 'Z' then (c as int + 32) as char else c
  }

  function Lower(s: string): string
  {
    seq(|s|, i requires 0 <= i < |s| => LowerChar(s[i]))
  }

  predicate StartsWith(s: string, prefix: string)
  {
    |prefix| <= |s| && s[..|prefix|] == prefix
  }

  /** The test inside `find`. */
  predicate Matches(l: string)
  {
    StartsWith(l, ZH) || StartsWith(l, EN)
  }

  /** `navigator.languages ?? [navigator.language]`: an empty list is kept. */
  function Preferred(nav: Navigator): seq<string>
  {
    if nav.languages.Some? then nav.languages.value else [nav.language]
  }

  /** `.map(toLowerCase).find(...)`: the first lowered preference that matches. */
  function FirstMatch(prefs: seq<string>): (r: Option<string>)
    ensures r.Some? ==> Matches(r.value)
    ensures r.None? <==> forall k :: 0 <= k < |prefs| ==> !Matches(Lower(prefs[k]))
  {
    if |prefs| == 0 then None
    else if Matches(Lower(prefs[0])) then Some(Lower(prefs[0]))
    else FirstMatch(prefs[1..])
  }

  /** `getNavigatorLanguage`. */
  function NavigatorLanguage(nav: Option<Navigator>): (r: string)
    ensures r == EN || r == ZH
  {
    if nav.None? then EN
    else
      var m := FirstMatch(Preferred(nav.value));
      if m.None? then EN
      else if StartsWith(m.value, ZH) then ZH
      else EN
  }

  /** The first matching preference decides. */
  lemma {:induction false} FirstMatchIsFirst(prefs: seq<string>, i: int)
    requires 0 <= i < |prefs| && Matches(Lower(prefs[i]))
    requires forall k :: 0 <= k < i ==> !Matches(Lower(prefs[k]))
    ensures FirstMatch(prefs) == Some(Lower(prefs[i]))
  {
    if i > 0 {
      FirstMatchIsFirst(prefs[1..], i - 1);
    }
  }

  lemma NavigatorFirstMatch(nav: Navigator, i: int)
    requires 0 <= i < |Preferred(nav)| && Matches(Lower(Preferred(nav)[i]))
    requires forall k :: 0 <= k < i ==> !Matches(Lower(Preferred(nav)[k]))
    ensures NavigatorLanguage(Some(nav)) == if StartsWith(Lower(Preferred(nav)[i]), ZH) then ZH else EN
  {
    FirstMatchIsFirst(Preferred(nav), i);
  }

  /** With no matching preference, an empty list included, and with no
      navigator at all, the answer is English. */
  lemma NavigatorDefault(nav: Option<Navigator>)
    requires nav.Some? ==> forall k :: 0 <= k < |Preferred(nav.value)| ==> !Matches(Lower(Preferred(nav.value)[k]))
    ensures NavigatorLanguage(nav) == EN
  {
  }

  /** Matching ignores case: a browser preferring "ZH-TW" gets Chinese. */
  lemma UpperCasePreference()
    ensures NavigatorLanguage(Some(Navigator(Some(["ZH-TW"]), "en-US"))) == ZH
  {
    assert Lower("ZH-TW") == "zh-tw";
    assert Matches(Lower("ZH-TW"));
  }

  /** An empty `languages` list is not nullish, so `language` is never consulted. */
  lemma EmptyLanguagesIgnoreLanguage()
    ensures NavigatorLanguage(Some(Navigator(Some([]), "zh-CN"))) == EN
  {
  }

  /** The names every object inherits from `Object.prototype`; `in` accepts
      them on the dictionaries object as it accepts "en" and "zh". */
  const PROTOTYPE_NAMES: set<string> := {
    "constructor", "hasOwnProperty", "isPrototypeOf", "propertyIsEnumerable",
    "toLocaleString", "toString", "valueOf", "__proto__",
    "__defineGetter__", "__defineSetter__", "__lookupGetter__", "__lookupSetter__"
  }

  /** `stored in dictionaries`. */
  predicate InDictionaries(s: string)
  {
    s == EN || s == ZH || s in PROTOTYPE_NAMES
  }

  /** `detectLanguage`: a stored, non-empty name the dictionaries object
      has, otherwise the navigator's choice. */
  function DetectLanguage(win: Option<Window>, nav: Option<Navigator>): (r: string)
    ensures InDictionaries(r)
  {
    if win.None? then EN
    else
      var stored := win.value.stored;
      if stored.Some? && stored.value != "" && InDictionaries(stored.value) then stored.value
      else NavigatorLanguage(nav)
  }

  /** A stored "en" or "zh" wins over the navigator; anything the
      dictionaries object lacks defers to it. */
  lemma DetectPrefersStored(s: Option<string>, nav: Option<Navigator>)
    ensures s == Some(EN) || s == Some(ZH) ==> DetectLanguage(Some(Window(s)), nav) == s.value
    ensures s.None? || !InDictionaries(s.value) ==> DetectLanguage(Some(Window(s)), nav) == NavigatorLanguage(nav)
    ensures DetectLanguage(None, nav) == EN
  {
  }

  /** The inherited names pass the test: a stored "toString" is returned as
      the language, although it is no locale. */
  lemma StoredInheritedName(nav: Option<Navigator>)
    ensures DetectLanguage(Some(Window(Some("toString"))), nav) == "toString"
  {
  }

  // ----- translation -----

  /** `a ?? b ?? ... ?? fallback`: the first defined value of the chain. */
  function Coalesce(chain: seq<Option<string>>, fallback: string): (r: string)
    ensures (forall k :: 0 <= k < |chain| ==> chain[k].None?) ==> r == fallback
    ensures r == fallback || exists k :: 0 <= k < |chain| && chain[k] == Some(r)
  {
    if |chain| == 0 then fallback
    else if chain[0].Some? then chain[0].value
    else Coalesce(chain[1..], fallback)
  }

  lemma {:induction false} CoalesceFirst(chain: seq<Option<string>>, fallback: string, i: int)
    requires 0 <= i < |chain| && chain[i].Some?
    requires forall k :: 0 <= k < i ==> chain[k].None?
    ensures Coalesce(chain, fallback) == chain[i].value
  {
    if i > 0 {
      CoalesceFirst(chain[1..], fallback, i - 1);
    }
  }

  /** `dictionaries[language]`: only "en" and "zh" name a dictionary.  An
      inherited name yields a function, which has none of the keys. */
  function Dictionary(en: map<string, string>, zh: map<string, string>, language: string): Option<map<string, string>>
  {
    if language == EN then Some(en) else if language == ZH then Some(zh) else None
  }

  function Entry(d: Option<map<string, string>>, key: string): Option<string>
  {
    if d.Some? && key in d.value then Some(d.value[key]) else None
  }

  /** `t`: `dictionaries[language]?.[key] ?? dictionaries.en[key] ?? key`. */
  function T(en: map<string, string>, zh: map<string, string>, language: string, key: string): (r: string)
    ensures r == key || (key in en && r == en[key]) || (language == ZH && key in zh && r == zh[key])
  {
    Coalesce([Entry(Dictionary(en, zh, language), key), Entry(Some(en), key)], key)
  }

  /** The fallback order: the language's own entry, then the English one,
      then the key itself.  An entry that is the empty string is an entry. */
  lemma TFallback(en: map<string, string>, zh: map<string, string>, language: string, key: string)
    ensures language == ZH && key in zh ==> T(en, zh, language, key) == zh[key]
    ensures !(language == ZH && key in zh) && key in en ==> T(en, zh, language, key) == en[key]
    ensures key !in en && !(language == ZH && key in zh) ==> T(en, zh, language, key) == key
  {
    var chain := [Entry(Dictionary(en, zh, language), key), Entry(Some(en), key)];
    if chain[0].Some? {
      CoalesceFirst(chain, key, 0);
    } else if chain[1].Some? {
      CoalesceFirst(chain, key, 1);
    }
  }

  /** `??` passes over `undefined` only: an empty Chinese text is shown as
      empty rather than replaced by the English one. */
  lemma EmptyTranslationKept(en: map<string, string>, zh: map<string, string>, key: string)
    requires key in zh && zh[key] == ""
    ensures T(en, zh, ZH, key) == ""
  {
    TFallback(en, zh, ZH, key);
  }

  /** The context's default `t` (`en[key] ?? key`) agrees with `t` for English. */
  function DefaultT(en: map<string, string>, key: string): (r: string)
    ensures key in en ==> r == en[key]
    ensures key !in en ==> r == key
  {
    Coalesce([Entry(Some(en), key)], key)
  }

  lemma DefaultIsEnglish(en: map<string, string>, zh: map<string, string>, language: string, key: string)
    requires language != ZH
    ensures T(en, zh, language, key) == DefaultT(en, key)
  {
    TFallback(en, zh, language, key);
  }
}
