/** Backslash-escaping of Markdown special characters, and the user mention
    link built from it. */
module Mention {
  import opened Base
  import opened Telegram

  /** The characters EscapeMarkdown prefixes with a backslash. */
  const Specials := "_*[]()~`>#+-=|{}.!"

  const Backslash := '\\'

  lemma SpecialsDistinct()
    ensures forall i, j :: 0 <= i < j < |Specials| ==> Specials[i] != Specials[j]
    ensures Backslash !in Specials
  {
  }

  /** `strings.ReplaceAll(s, string(c), rep)` for a one-character needle:
      every `c` becomes `rep` and every other character is kept, in order.
      When the replacement does not contain the needle, no occurrence of it
      is left. The turn EscapeMarkdown makes, with `rep` holding `c`, is
      described by EscapeTurn. */
  function ReplaceAll(s: string, c: char, rep: string): (r: string)
    ensures c !in rep ==> c !in r
    decreases |s|
  {
    if s == [] then []
    else ReplaceAll(s[..|s| - 1], c, rep) + (if s[|s| - 1] == c then rep else [s[|s| - 1]])
  }

  lemma {:induction false} ReplaceAllConcat(s: string, t: string, c: char, rep: string)
    ensures ReplaceAll(s + t, c, rep) == ReplaceAll(s, c, rep) + ReplaceAll(t, c, rep)
    decreases |t|
  {
    if t == [] {
      assert s + t == s;
    } else {
      var init, last := t[..|t| - 1], t[|t| - 1];
      var piece := if last == c then rep else [last];
      assert (s + t)[..|s + t| - 1] == s + init;
      assert (s + t)[|s + t| - 1] == last;
      assert ReplaceAll(s + t, c, rep) == ReplaceAll(s + init, c, rep) + piece;
      assert ReplaceAll(t, c, rep) == ReplaceAll(init, c, rep) + piece;
      ReplaceAllConcat(s, init, c, rep);
    }
  }

  /** The escape of one character for the characters in `escaped`. */
  function EscapeChar(ch: char, escaped: set<char>): string {
    if ch in escaped then [Backslash, ch] else [ch]
  }

  /** Every character of `s` in `escaped` prefixed with a backslash, every
      other character copied. */
  function EscapeSet(s: string, escaped: set<char>): string
    decreases |s|
  {
    if s == [] then [] else EscapeSet(s[..|s| - 1], escaped) + EscapeChar(s[|s| - 1], escaped)
  }

  function CharsOf(s: string): set<char> {
    set c | c in s
  }

  /** The per-character reference meaning of EscapeMarkdown. */
  function Escaped(s: string): string {
    EscapeSet(s, CharsOf(Specials))
  }

  /** Escaping one more character that is not a backslash and not yet
      escaped: the ReplaceAll of one loop turn. */
  lemma {:induction false} EscapeOneMore(s: string, escaped: set<char>, c: char)
    requires c !in escaped && c != Backslash
    ensures ReplaceAll(EscapeSet(s, escaped), c, [Backslash, c]) == EscapeSet(s, escaped + {c})
    decreases |s|
  {
    if s != [] {
      var init, last := s[..|s| - 1], s[|s| - 1];
      var block := EscapeChar(last, escaped);
      ReplaceAllConcat(EscapeSet(init, escaped), block, c, [Backslash, c]);
      EscapeOneMore(init, escaped, c);
      if last in escaped {
        ReplaceAllAbsent(block, c, [Backslash, c]);
      } else {
        assert block == [last] && block[..0] == [];
        assert ReplaceAll(block, c, [Backslash, c]) == EscapeChar(last, escaped + {c});
      }
    }
  }

  /** Replacing a character the text does not hold changes nothing. */
  lemma {:induction false} ReplaceAllAbsent(s: string, c: char, rep: string)
    requires c !in s
    ensures ReplaceAll(s, c, rep) == s
    decreases |s|
  {
    if s != [] {
      ReplaceAllAbsent(s[..|s| - 1], c, rep);
      assert s == s[..|s| - 1] + [s[|s| - 1]];
    }
  }

  /** One turn of EscapeMarkdown's loop escapes one more special character. */
  lemma EscapeTurn(text: string, k: int)
    requires 0 <= k < |Specials|
    ensures ReplaceAll(EscapeSet(text, CharsOf(Specials[..k])), Specials[k], [Backslash, Specials[k]])
      == EscapeSet(text, CharsOf(Specials[..k + 1]))
  {
    SpecialsDistinct();
    var c := Specials[k];
    assert c !in Specials[..k];
    assert Specials[..k + 1] == Specials[..k] + [c];
    assert CharsOf(Specials[..k + 1]) == CharsOf(Specials[..k]) + {c};
    EscapeOneMore(text, CharsOf(Specials[..k]), c);
  }

  /** Prefixes each special character of `text` with a backslash, one
      special character at a time. */
  method EscapeMarkdown(text: string) returns (r: string)
    ensures r == Escaped(text)
  {
    r := text;
    assert CharsOf(Specials[..0]) == {};
    NothingEscaped(text);
    for k := 0 to |Specials|
      invariant r == EscapeSet(text, CharsOf(Specials[..k]))
    {
      EscapeTurn(text, k);
      r := ReplaceAll(r, Specials[k], [Backslash, Specials[k]]);
    }
    assert Specials[..|Specials|] == Specials;
  }

  lemma {:induction false} NothingEscaped(s: string)
    ensures EscapeSet(s, {}) == s
    decreases |s|
  {
    if s != [] {
      NothingEscaped(s[..|s| - 1]);
    }
  }

  /** How many characters of `s` are special. */
  function SpecialCount(s: string): nat
    decreases |s|
  {
    if s == [] then 0 else SpecialCount(s[..|s| - 1]) + (if s[|s| - 1] in Specials then 1 else 0)
  }

  /** The escaped text is the input plus one backslash per special character. */
  lemma {:induction false} EscapedLength(s: string)
    ensures |Escaped(s)| == |s| + SpecialCount(s)
    decreases |s|
  {
    if s != [] {
      EscapedLength(s[..|s| - 1]);
    }
  }

  /** A text without special characters is returned unchanged. */
  lemma {:induction false} NoSpecialsUnchanged(s: string)
    requires forall i :: 0 <= i < |s| ==> s[i] !in Specials
    ensures Escaped(s) == s
    decreases |s|
  {
    if s != [] {
      NoSpecialsUnchanged(s[..|s| - 1]);
    }
  }

  /** Removes the backslash in front of every special character. */
  function Unescape(t: string): string
    decreases |t|
  {
    if t == [] then []
    else if |t| >= 2 && t[|t| - 1] in Specials && t[|t| - 2] == Backslash then
      Unescape(t[..|t| - 2]) + [t[|t| - 1]]
    else Unescape(t[..|t| - 1]) + [t[|t| - 1]]
  }

  /** Each special character gets exactly one backslash and nothing else is
      touched: removing those backslashes restores the text. */
  lemma {:induction false} UnescapeEscaped(s: string)
    ensures Unescape(Escaped(s)) == s
    decreases |s|
  {
    if s != [] {
      var init, last := s[..|s| - 1], s[|s| - 1];
      var e := Escaped(init);
      var t := e + EscapeChar(last, CharsOf(Specials));
      UnescapeEscaped(init);
      assert s == init + [last];
      assert Escaped(s) == t;
      if last in Specials {
        assert t[..|t| - 2] == e;
      } else {
        assert t[..|t| - 1] == e;
      }
    }
  }

  /** Every special character in the escaped text is preceded by a
      backslash. */
  lemma {:induction false} SpecialsArePrefixed(s: string)
    ensures forall i :: 0 <= i < |Escaped(s)| && Escaped(s)[i] in Specials ==>
      i > 0 && Escaped(s)[i - 1] == Backslash
    decreases |s|
  {
    if s != [] {
      SpecialsDistinct();
      var init, last := s[..|s| - 1], s[|s| - 1];
      var e := Escaped(init);
      var block := EscapeChar(last, CharsOf(Specials));
      SpecialsArePrefixed(init);
      assert Escaped(s) == e + block;
      forall i | 0 <= i < |e + block| && (e + block)[i] in Specials
        ensures i > 0 && (e + block)[i - 1] == Backslash
      {
        if i < |e| {
          assert (e + block)[i] == e[i] && (e + block)[i - 1] == e[i - 1];
        } else {
          assert (e + block)[i] == block[i - |e|];
        }
      }
    }
  }

  /** The part of a user link after its text: `](tg://user?id=ID)`. */
  function LinkTail(id: int): string {
    "](tg://user?id=" + IntToString(id) + ")"
  }

  /** `[text](tg://user?id=ID)`. */
  function Link(text: string, id: int): (r: string)
    ensures |r| == 1 + |text| + |LinkTail(id)|
    ensures r[0] == '[' && r[1..1 + |text|] == text && r[1 + |text|..] == LinkTail(id)
  {
    "[" + text + LinkTail(id)
  }

  /** The mention link for `user`: a Markdown link, opened by '[', whose
      target is the user's id. */
  function GenerateMention(user: User): (r: string)
    ensures |r| > |LinkTail(user.id)| && r[0] == '['
    ensures r[|r| - |LinkTail(user.id)|..] == LinkTail(user.id)
  {
    if user.firstName != "" && user.lastName != "" then
      Link(Escaped(user.firstName) + " " + Escaped(user.lastName), user.id)
    else if user.firstName != "" then
      Link(Escaped(user.firstName), user.id)
    else if user.username != "" then
      Link("@" + Escaped(user.firstName), user.id)
    else
      Link("User", user.id)
  }

  /** The four shapes of a mention. A user known only by username is
      mentioned as a bare "@": that branch escapes the first name, which is
      empty there, so the username never appears in the link. */
  lemma MentionShapes(user: User)
    ensures user.firstName != "" && user.lastName != "" ==>
      GenerateMention(user) == Link(Escaped(user.firstName) + " " + Escaped(user.lastName), user.id)
    ensures user.firstName != "" && user.lastName == "" ==>
      GenerateMention(user) == Link(Escaped(user.firstName), user.id)
    ensures user.firstName == "" && user.username != "" ==> GenerateMention(user) == Link("@", user.id)
    ensures user.firstName == "" && user.username == "" ==> GenerateMention(user) == Link("User", user.id)
  {
    assert Escaped("") == "";
    assert "@" + "" == "@";
  }

  /** The username-only mention written out. */
  lemma UsernameOnlyMention(user: User)
    requires user.firstName == "" && user.username != ""
    ensures GenerateMention(user) == "[@](tg://user?id=" + IntToString(user.id) + ")"
  {
    MentionShapes(user);
  }

  lemma UsernameOnlyExample()
    ensures GenerateMention(User(42, false, "", "", "alice", "en")) == "[@](tg://user?id=42)"
  {
    UsernameOnlyMention(User(42, false, "", "", "alice", "en"));
    assert IntToString(42) == "42" by {
      assert NatToString(4) == "4";
    }
  }
}
