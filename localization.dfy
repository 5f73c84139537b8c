/** Choosing the language an update is answered in: from the user's stored
    preference, else from the language Telegram reports, normalised to a
    supported one, else the default. */
module Localization {
  import opened Base
  import opened Telegram

  const DefaultLanguageCode := "en"

  /** The users an update may come from, highest priority first: the
      message's sender, the callback query's sender, the inline query's. */
  function Candidates(u: Update): seq<User> {
    (if u.message.Some? && u.message.value.from.Some? then [u.message.value.from.value] else []) +
    (if u.callbackQuery.Some? then [u.callbackQuery.value.from] else []) +
    (if u.inlineQuery.Some? then [u.inlineQuery.value.from] else [])
  }

  /** getTelegramID: the first candidate's id, or 0 when the update names
      no sender. */
  function TelegramID(u: Update): (id: int)
    ensures Candidates(u) == [] ==> id == 0
    ensures Candidates(u) != [] ==> id == Candidates(u)[0].id
  {
    if u.message.Some? && u.message.value.from.Some? then u.message.value.from.value.id
    else if u.callbackQuery.Some? then u.callbackQuery.value.from.id
    else if u.inlineQuery.Some? then u.inlineQuery.value.from.id
    else 0
  }

  /** getTelegramLanguage: the first candidate's reported language, or ""
      when the update names no sender. */
  function TelegramLanguage(u: Update): (lang: string)
    ensures Candidates(u) == [] ==> lang == ""
    ensures Candidates(u) != [] ==> lang == Candidates(u)[0].languageCode
  {
    if u.message.Some? && u.message.value.from.Some? then u.message.value.from.value.languageCode
    else if u.callbackQuery.Some? then u.callbackQuery.value.from.languageCode
    else if u.inlineQuery.Some? then u.inlineQuery.value.from.languageCode
    else ""
  }

  /** Both lookups take the first candidate, and fall back when there is
      none: the id and the language always describe the same user. */
  lemma SamePriority(u: Update)
    ensures Candidates(u) == [] ==> TelegramID(u) == 0 && TelegramLanguage(u) == ""
    ensures Candidates(u) != [] ==>
      TelegramID(u) == Candidates(u)[0].id && TelegramLanguage(u) == Candidates(u)[0].languageCode
  {
  }

  /** What normalizeLanguageCode chooses: the code itself when supported,
      else its two-character prefix when that is supported, else the
      default. */
  function Normalized(code: string, supported: seq<string>): (r: string)
    ensures r in supported || r == DefaultLanguageCode
    ensures r == code || (|code| >= 2 && r == code[..2]) || r == DefaultLanguageCode
  {
    if code in supported then code
    else if |code| >= 2 && code[..2] in supported then code[..2]
    else DefaultLanguageCode
  }

  /** Searches the supported list for the code, then for its two-character
      prefix. */
  method NormalizeLanguageCode(langCode: string, supported: seq<string>) returns (r: string)
    ensures r == Normalized(langCode, supported)
  {
    for i := 0 to |supported|
      invariant langCode !in supported[..i]
    {
      if langCode == supported[i] {
        return langCode;
      }
    }
    assert supported[..|supported|] == supported;
    if |langCode| >= 2 {
      var shortCode := langCode[..2];
      for i := 0 to |supported|
        invariant shortCode !in supported[..i]
      {
        if shortCode == supported[i] {
          return shortCode;
        }
      }
    }
    return DefaultLanguageCode;
  }

  /** The chosen language is supported or the default. */
  lemma NormalizedIsKnown(code: string, supported: seq<string>)
    ensures Normalized(code, supported) in supported || Normalized(code, supported) == DefaultLanguageCode
    ensures code in supported ==> Normalized(code, supported) == code
    ensures code !in supported && |code| >= 2 && code[..2] in supported ==> Normalized(code, supported) == code[..2]
  {
  }

  /** The order and repetitions of the supported list do not matter. */
  lemma NormalizedOrderIndependent(code: string, s1: seq<string>, s2: seq<string>)
    requires forall x :: x in s1 <==> x in s2
    ensures Normalized(code, s1) == Normalized(code, s2)
  {
  }

  lemma NormalizedExamples()
    ensures Normalized("en-US", ["en", "ru"]) == "en"
    ensures Normalized("ru", ["en", "ru"]) == "ru"
    ensures Normalized("de", ["en", "ru"]) == "en"
  {
    assert "en-US"[..2] == "en";
    assert "de"[..2] == "de";
  }

  /** The user repository reduced to what language selection uses: each
      Telegram id's stored language code. */
  class UserRepository {
    var languages: map<int, string>

    constructor (languages: map<int, string>)
      ensures this.languages == languages
    {
      this.languages := languages;
    }

    /** UpsertLanguage: records `code` for `id`, whether or not a row
        existed, unless the database call fails. */
    method UpsertLanguage(id: int, code: string, fails: bool) returns (ok: bool)
      modifies this
      ensures ok == !fails
      ensures languages == if fails then old(languages) else old(languages)[id := code]
    {
      if fails {
        return false;
      }
      languages := languages[id := code];
      return true;
    }
  }

  /** getUserLanguage. `lookupFails` and `upsertFails` are whether the two
      database calls return an error. */
  method GetUserLanguage(repo: UserRepository, update: Update, supported: seq<string>, lookupFails: bool, upsertFails: bool)
    returns (lang: string)
    modifies repo
    ensures TelegramID(update) == 0 ==>
      lang == DefaultLanguageCode && repo.languages == old(repo.languages)
    ensures TelegramID(update) != 0 && !lookupFails && TelegramID(update) in old(repo.languages) ==>
      lang == old(repo.languages)[TelegramID(update)] && repo.languages == old(repo.languages)
    ensures TelegramID(update) != 0 && (lookupFails || TelegramID(update) !in old(repo.languages)) ==>
      if TelegramLanguage(update) == "" then
        lang == DefaultLanguageCode && repo.languages == old(repo.languages)
      else
        lang == Normalized(TelegramLanguage(update), supported) &&
        repo.languages == if upsertFails then old(repo.languages) else old(repo.languages)[TelegramID(update) := lang]
  {
    var telegramID := TelegramID(update);
    if telegramID == 0 {
      return DefaultLanguageCode;
    }
    if !lookupFails && telegramID in repo.languages {
      return repo.languages[telegramID];
    }
    var telegramLang := TelegramLanguage(update);
    if telegramLang != "" {
      var normalizedLang := NormalizeLanguageCode(telegramLang, supported);
      var _ := repo.UpsertLanguage(telegramID, normalizedLang, upsertFails);
      return normalizedLang;
    }
    return DefaultLanguageCode;
  }
}
