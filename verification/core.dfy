/**
  The conversational brain used by the chat client: it ignores empty or
  one-character messages, answers greetings with one of four canned replies, the
  help request with the help card, media links with a placeholder, and passes
  everything else to the AI service.

  The AI service is an oracle from the question sent to it to its reply (`None`
  when the call fails or the reply is missing); the random choice of greeting is
  an index supplied by the caller. Case folding is ASCII only.

  The media test as written finds a pattern anywhere in the text, so "x.com"
  matches inside "dropbox.com". `MediaTest` selects that test or the corrected
  one, which wants the pattern to start a word.
 */
module Core {
  import opened Wrappers
  import opened JsString

  const GREETINGS: seq<string> := [
    "Hey! \U{1F44B} What's up?",
    "Hi there! How can I help?",
    "Hello! \U{1F60A} What do you need?",
    "Hey hey! What brings you here?"
  ]

  /** The help card, held as the text around its "Help" line so that the word can be pointed at. */
  const HELP_TEMPLATE: string := HELP_HEAD + "Help" + HELP_TAIL

  const HELP_HEAD: string :=
    "\U{1F916} *What I can do:*\n\n"
    + "\U{2022} Chat naturally about anything\n"
    + "\U{2022} Download videos (TikTok, YouTube, IG, Twitter)\n"
    + "\U{2022} "

  const HELP_TAIL: string :=
    " with group management\n"
    + "\U{2022} Answer questions\n\n"
    + "Just send me a message or link!"

  const ERROR_TEMPLATE: string := "Hmm, something went wrong \U{1F605} Try again?"

  const MEDIA_REPLY: string :=
    "\U{1F3AC} I see a media link! Download feature coming soon. For now, let's chat about something else?"

  /** The text put before the user's message in the question sent to the AI service. */
  const AI_PROMPT: string :=
    "Reply as Delvin (concise, friendly, natural) and also stop saying hey everytime. The user says: "

  const GREETING_WORDS: seq<string> := ["hi", "hello", "hey", "sup", "yo", "morning", "evening", "afternoon"]

  const HELP_WORDS: seq<string> := ["help", "menu", "commands", "what can you do", "features"]

  /** The case-insensitive link patterns, one literal per alternative of the source's regular expressions. */
  const MEDIA_PATTERNS: seq<string> :=
    ["tiktok.com", "vm.tiktok.com", "youtube.com", "youtu.be", "instagram.com", "twitter.com", "x.com", "facebook.com"]

  /** `shouldIgnore(text)`: empty, blank, or a single UTF-16 unit once trimmed. */
  predicate ShouldIgnore(text: string) {
    text == [] || Utf16Length(Trim(text)) == 0 || Utf16Length(Trim(text)) < 2
  }

  /**
    A message is ignored exactly when, trimmed, it is empty or one character of
    the Basic Multilingual Plane; a lone emoji outside it is two UTF-16 units and
    is answered.
   */
  lemma ShouldIgnoreIff(text: string)
    ensures ShouldIgnore(text) <==>
      Trim(text) == [] || (|Trim(text)| == 1 && Trim(text)[0] as int <= 0xFFFF)
  {
    var t := Trim(text);
    if |t| == 1 {
      assert t[..0] == [];
    }
  }

  /** `isGreeting(text)`: a greeting word alone, or followed by a space or a comma. */
  predicate IsGreeting(text: string) {
    var lower := Trim(ToLower(text));
    exists g :: g in GREETING_WORDS && (lower == g || StartsWith(lower, g + " ") || StartsWith(lower, g + ","))
  }

  /** `isHelpCommand(text)`: a help phrase anywhere in the text. */
  predicate IsHelpCommand(text: string) {
    var lower := Trim(ToLower(text));
    exists h :: h in HELP_WORDS && Includes(lower, h)
  }

  predicate IsWordChar(c: char) {
    ('a' <= c <= 'z') || ('A' <= c <= 'Z') || ('0' <= c <= '9') || c == '_'
  }

  /** `isMediaUrl(text)` as written: any pattern anywhere, so "x.com" also matches inside "dropbox.com". */
  predicate IsMediaUrlAsWritten(text: string) {
    exists p :: p in MEDIA_PATTERNS && Includes(ToLower(text), p)
  }

  /** An occurrence of `p` in `s` that does not continue a word on its left (a `\b` before it). */
  predicate MatchesAtBoundary(s: string, p: string) {
    exists j: nat :: j <= |s| && MatchAt(s, p, j) && (j == 0 || !IsWordChar(s[j - 1]))
  }

  /** `isMediaUrl(text)` with each domain matched from a word boundary, as the patterns are meant. */
  predicate IsMediaUrl(text: string) {
    exists p :: p in MEDIA_PATTERNS && MatchesAtBoundary(ToLower(text), p)
  }

  /** The as-written patterns take a bare file-sharing domain for a Twitter link. */
  lemma DropboxIsMediaAsWritten()
    ensures IsMediaUrlAsWritten("dropbox.com")
    ensures !IsMediaUrl("dropbox.com")
  {
    var t := "dropbox.com";
    DropboxIsLower();
    assert t[6..11] == "x.com";
    IncludesAt(t, "x.com", 6);
    assert "x.com" in MEDIA_PATTERNS;
    DropboxMatchesInsideWords();
  }

  lemma DropboxIsLower()
    ensures ToLower("dropbox.com") == "dropbox.com"
  {
  }

  lemma DropboxMatchesInsideWords()
    ensures forall p, j: nat | p in MEDIA_PATTERNS && j <= |"dropbox.com"| && MatchAt("dropbox.com", p, j) ::
      j > 0 && IsWordChar("dropbox.com"[j - 1])
  {
    var t := "dropbox.com";
    forall p, j: nat | p in MEDIA_PATTERNS && j <= |t| && MatchAt(t, p, j)
      ensures j > 0 && IsWordChar(t[j - 1])
    {
      assert t[j] == p[0] by {
        assert t[j..j + |p|][0] == t[j];
      }
    }
  }

  /** Every link the boundary-respecting check accepts, the as-written one accepts too. */
  lemma MediaUrlRefines(text: string)
    ensures IsMediaUrl(text) ==> IsMediaUrlAsWritten(text)
  {
    if IsMediaUrl(text) {
      var p, j: nat :| p in MEDIA_PATTERNS && j <= |ToLower(text)| && MatchAt(ToLower(text), p, j)
                       && (j == 0 || !IsWordChar(ToLower(text)[j - 1]));
      IncludesAt(ToLower(text), p, j);
    }
  }

  /** Links to the listed sites are still recognised, with or without a scheme or "www.". */
  lemma MediaLinksRecognised()
    ensures IsMediaUrl("https://x.com/a")
    ensures IsMediaUrl("www.youtu.be/a")
  {
    var t1 := "https://x.com/a";
    assert ToLower(t1) == t1;
    assert t1[8..13] == "x.com" && !IsWordChar(t1[7]);
    assert MatchAt(t1, "x.com", 8);
    assert "x.com" in MEDIA_PATTERNS;
    var t2 := "www.youtu.be/a";
    assert ToLower(t2) == t2;
    assert t2[4..12] == "youtu.be" && !IsWordChar(t2[3]);
    assert MatchAt(t2, "youtu.be", 4);
    assert "youtu.be" in MEDIA_PATTERNS;
  }

  /** `getAIResponse(message)`: the service's reply, or the error template when there is none. */
  function GetAIResponse(message: string, ai: string -> Option<string>): (r: string)
    ensures r != []
    ensures ai(AI_PROMPT + message).Some? && ai(AI_PROMPT + message).value != [] ==> r == ai(AI_PROMPT + message).value
    ensures ai(AI_PROMPT + message).None? || ai(AI_PROMPT + message).value == [] ==> r == ERROR_TEMPLATE
  {
    match ai(AI_PROMPT + message)
    case Some(reply) => if reply != [] then reply else ERROR_TEMPLATE
    case None => ERROR_TEMPLATE
  }

  /** Which branch of `processMessage` answers. */
  datatype Kind = Ignored | Greeting | Help | Media | Ai

  /** Which media-link test the brain applies. */
  datatype MediaTest =
    | AnyMatch    // as written: a pattern anywhere in the text
    | WordStart   // corrected: a pattern that starts a word

  predicate MediaLink(test: MediaTest, text: string) {
    match test
    case AnyMatch => IsMediaUrlAsWritten(text)
    case WordStart => IsMediaUrl(text)
  }

  function Classify(text: string, test: MediaTest): (k: Kind)
    ensures k == Ignored <==> ShouldIgnore(text)
    ensures k == Greeting <==> !ShouldIgnore(text) && IsGreeting(Trim(text))
    ensures k == Help <==> !ShouldIgnore(text) && !IsGreeting(Trim(text)) && IsHelpCommand(Trim(text))
    ensures k == Media <==>
      !ShouldIgnore(text) && !IsGreeting(Trim(text)) && !IsHelpCommand(Trim(text)) && MediaLink(test, Trim(text))
  {
    if ShouldIgnore(text) then Ignored
    else if IsGreeting(Trim(text)) then Greeting
    else if IsHelpCommand(Trim(text)) then Help
    else if MediaLink(test, Trim(text)) then Media
    else Ai
  }

  /**
    The two media tests classify alike, except that a text the substring test
    takes for a media link without a pattern starting a word goes to the AI
    service under the corrected test.
   */
  lemma MediaTestsAgree(text: string)
    ensures Classify(text, AnyMatch) != Media ==> Classify(text, WordStart) == Classify(text, AnyMatch)
    ensures Classify(text, AnyMatch) == Media ==>
      Classify(text, WordStart) == (if IsMediaUrl(Trim(text)) then Media else Ai)
  {
    MediaUrlRefines(Trim(text));
  }

  /**
    `processMessage(text)`: `None` for ignored input; otherwise the reply of the
    first branch that applies, in the order greeting, help, media link, AI.
    `pick` is the random index into the greetings.
   */
  function ProcessMessage(text: string, test: MediaTest, pick: nat, ai: string -> Option<string>): (r: Option<string>)
    requires pick < |GREETINGS|
    ensures r.None? <==> ShouldIgnore(text)
    ensures Classify(text, test) == Greeting ==> r == Some(GREETINGS[pick])
    ensures Classify(text, test) == Help ==> r == Some(HELP_TEMPLATE)
    ensures Classify(text, test) == Media ==> r == Some(MEDIA_REPLY)
    ensures Classify(text, test) == Ai ==> r == Some(GetAIResponse(Trim(text), ai))
  {
    match Classify(text, test)
    case Ignored => None
    case Greeting => Some(GREETINGS[pick])
    case Help => Some(HELP_TEMPLATE)
    case Media => Some(MEDIA_REPLY)
    case Ai => Some(GetAIResponse(Trim(text), ai))
  }

  /**
    As written, a bare file-sharing domain is answered with the media notice;
    under the corrected test it is a question for the AI service.
   */
  lemma DropboxAnswers(pick: nat, ai: string -> Option<string>)
    requires pick < |GREETINGS|
    ensures ProcessMessage("dropbox.com", AnyMatch, pick, ai) == Some(MEDIA_REPLY)
    ensures ProcessMessage("dropbox.com", WordStart, pick, ai) == Some(GetAIResponse("dropbox.com", ai))
  {
    DropboxKinds("dropbox.com");
  }

  lemma DropboxKinds(t: string)
    requires t == "dropbox.com"
    ensures Trim(t) == t
    ensures Classify(t, AnyMatch) == Media && Classify(t, WordStart) == Ai
  {
    TrimNoop(t);
    NotIgnoredIfLong(t);
    NoGreetingInitial(t);
    NoHelpInDropbox(t);
    DropboxIsMediaAsWritten();
    PastHelp(t, AnyMatch);
    PastHelp(t, WordStart);
  }

  /** Text that is answered and neither a greeting nor a help request is a media link or a question for the AI. */
  lemma PastHelp(t: string, test: MediaTest)
    requires !ShouldIgnore(t) && !IsGreeting(Trim(t)) && !IsHelpCommand(Trim(t))
    ensures Classify(t, test) == if MediaLink(test, Trim(t)) then Media else Ai
  {
  }

  lemma NoHelpInDropbox(t: string)
    requires t == "dropbox.com"
    ensures !IsHelpCommand(t) && Trim(ToLower(t)) == t
  {
    DropboxPlain(t);
    NoWordsInDropbox(t);
    NoHelpWords(t);
  }

  lemma DropboxPlain(t: string)
    requires t == "dropbox.com"
    ensures Trim(ToLower(t)) == t
  {
    DropboxIsLower();
    TrimNoop(t);
  }

  /** A text that is its own lower-cased trim and holds no help phrase is not a help request. */
  lemma NoHelpWords(t: string)
    requires Trim(ToLower(t)) == t
    requires !Includes(t, "help") && !Includes(t, "menu") && !Includes(t, "commands")
    requires !Includes(t, "what can you do") && !Includes(t, "features")
    ensures !IsHelpCommand(t)
  {
  }

  lemma NoWordsInDropbox(t: string)
    requires t == "dropbox.com"
    ensures !Includes(t, "help") && !Includes(t, "menu") && !Includes(t, "commands")
    ensures !Includes(t, "what can you do") && !Includes(t, "features")
  {
    NotIncludedWithoutInitial(t, "help");
    NotIncludedWithoutInitial(t, "features");
    NoLateInitial(t, "menu");
    NoLateInitial(t, "commands");
    if Includes(t, "what can you do") {
      IncludesLength(t, "what can you do");
    }
  }

  /** In "dropbox.com" the letters 'c' and 'm' come too late to start "commands" or "menu". */
  lemma NoLateInitial(t: string, w: string)
    requires t == "dropbox.com" && (w == "menu" || w == "commands")
    ensures !Includes(t, w)
  {
    if w == "menu" {
      assert forall i :: 0 <= i < |t| && i + 4 <= |t| ==> t[i] != 'm';
    } else {
      assert forall i :: 0 <= i < |t| && i + 8 <= |t| ==> t[i] != 'c';
    }
    NotIncludedWithoutInitial(t, w);
  }

  /** A word whose first letter occurs nowhere it could start is not in the text. */
  lemma NotIncludedWithoutInitial(s: string, w: string)
    requires w != [] && forall i :: 0 <= i < |s| && i + |w| <= |s| ==> s[i] != w[0]
    ensures !Includes(s, w)
  {
    IncludesIffOccurs(s, w);
    forall j: nat
      ensures !MatchAt(s, w, j)
    {
      if j + |w| <= |s| {
        assert s[j..j + |w|][0] == s[j];
      }
    }
  }

  /**
    A text that, lower-cased, opens with a greeting word and a space and does
    not end in whitespace is its own trim, is answered, and is a greeting,
    whatever follows the greeting word.
   */
  lemma OpensWithGreeting(t: string, g: string)
    requires g in GREETING_WORDS && StartsWith(ToLower(t), g + " ") && !IsSpace(t[|t| - 1])
    ensures Trim(t) == t && !ShouldIgnore(t) && IsGreeting(t)
  {
    var l := ToLower(t);
    GreetingInitials();
    assert l[0] == (g + " ")[0] == g[0];
    LowerKeepsSpace(t[0]);
    LowerKeepsSpace(t[|t| - 1]);
    TrimNoop(t);
    TrimNoop(l);
    GreetingWord(t, g);
    NotIgnoredIfLong(t);
  }

  /**
    Greetings are checked first: such a text is answered with a greeting
    whatever follows the greeting word, under either media test.
   */
  lemma GreetingBeforeHelp(t: string, g: string, test: MediaTest, pick: nat, ai: string -> Option<string>)
    requires pick < |GREETINGS|
    requires g in GREETING_WORDS && StartsWith(ToLower(t), g + " ") && !IsSpace(t[|t| - 1])
    ensures ProcessMessage(t, test, pick, ai) == Some(GREETINGS[pick])
  {
    OpensWithGreeting(t, g);
  }

  /** A greeting word, then anything, then "help": a help request, still answered with a greeting. */
  lemma GreetingShadowsHelp(g: string, rest: string, test: MediaTest, pick: nat, ai: string -> Option<string>)
    requires pick < |GREETINGS| && g in GREETING_WORDS
    ensures IsHelpCommand(g + " " + rest + "help")
    ensures ProcessMessage(g + " " + rest + "help", test, pick, ai) == Some(GREETINGS[pick])
  {
    var a := g + " " + rest;
    EndsInHelp(a);
    EndsInP(a);
    GreetingOpensText(g, rest);
    GreetingBeforeHelp(a + "help", g, test, pick, ai);
  }

  /** Any text followed by "help" is a help request. */
  lemma EndsInHelp(a: string)
    ensures IsHelpCommand(a + "help")
  {
    assert ToLower("help") == "help";
    SpelledHelpInside(a, "help", "");
    assert a + "help" + "" == a + "help";
    HelpInside(a + "help");
  }

  lemma EndsInP(a: string)
    ensures |a + "help"| > 0 && !IsSpace((a + "help")[|a + "help"| - 1])
  {
    assert (a + "help")[|a + "help"| - 1] == 'p';
  }

  /** A greeting word and a space open the lower-cased text they start. */
  lemma GreetingOpensText(g: string, rest: string)
    requires g in GREETING_WORDS
    ensures StartsWith(ToLower(g + " " + rest + "help"), g + " ")
  {
    var t := g + " " + rest + "help";
    GreetingWordsLower();
    LowerPrefix(t, |g + " "|);
    assert t[..|g + " "|] == g + " ";
  }

  /** The greeting words are written in lower case. */
  lemma GreetingWordsLower()
    ensures forall g :: g in GREETING_WORDS ==> ToLower(g + " ") == g + " "
  {
    forall g | g in GREETING_WORDS
      ensures ToLower(g + " ") == g + " "
    {
      assert forall i :: 0 <= i < |g| ==> 'a' <= g[i] <= 'z';
    }
  }

  lemma NotIgnoredIfLong(s: string)
    requires |Trim(s)| >= 2
    ensures !ShouldIgnore(s)
  {
  }

  lemma GreetingWord(t: string, g: string)
    requires g in GREETING_WORDS && StartsWith(Trim(ToLower(t)), g + " ")
    ensures IsGreeting(t)
  {
    var lower := Trim(ToLower(t));
    assert g in GREETING_WORDS && StartsWith(lower, g + " ");
  }

  /** Help, menu and the like are recognised anywhere in the message, in any letter case. */
  lemma HelpWordAnywhere(a: string, b: string)
    ensures IsHelpCommand(a + "HELP" + b)
  {
    assert ToLower("HELP") == "help";
    SpelledHelpInside(a, "HELP", b);
    HelpInside(a + "HELP" + b);
  }

  /**
    A text that contains "help" in any letter case is a help request, and so is
    its trim, which is long enough not to be ignored.
   */
  lemma HelpInside(t: string)
    requires Includes(ToLower(t), "help")
    ensures IsHelpCommand(t) && IsHelpCommand(Trim(t)) && !ShouldIgnore(t)
  {
    HelpSurvivesTrim(ToLower(t));
    HelpWordFound(t);
    TrimLowerTwice(t);
    HelpWordFound(Trim(t));
    IncludesLength(Trim(ToLower(t)), "help");
    NotIgnoredIfLong(t);
  }

  lemma TrimLowerTwice(t: string)
    ensures Trim(ToLower(Trim(t))) == Trim(ToLower(t))
  {
    TrimLower(t);
    TrimLower(Trim(t));
    TrimIdempotent(t);
  }

  lemma HelpWordFound(t: string)
    requires Includes(Trim(ToLower(t)), "help")
    ensures IsHelpCommand(t)
  {
    assert "help" in HELP_WORDS;
  }

  lemma HelpSurvivesTrim(l: string)
    requires Includes(l, "help")
    ensures Includes(Trim(l), "help")
  {
    assert !IsSpace('h') && !IsSpace('p');
    IncludesTrim(l, "help");
  }

  /** The help card itself mentions help ("Help with group management"). */
  lemma HelpTemplateMentionsHelp()
    ensures Includes(ToLower(HELP_TEMPLATE), "help")
  {
    assert ToLower("Help") == "help";
    SpelledHelpInside(HELP_HEAD, "Help", HELP_TAIL);
  }

  /** "help" spelt in any letter case inside a text is found by the lower-cased search. */
  lemma SpelledHelpInside(before: string, word: string, after: string)
    requires ToLower(word) == "help"
    ensures Includes(ToLower(before + word + after), "help")
  {
    IncludesAt(word, word, 0);
    IncludesInfix(before, word, after, word);
    IncludesLower(before + word + after, word);
  }

  /** No greeting word starts with any of these letters. */
  predicate NotGreetingInitial(c: char) {
    c != 'h' && c != 's' && c != 'y' && c != 'm' && c != 'e' && c != 'a'
  }

  /** A text whose first character is not a space and cannot start a greeting word is not a greeting. */
  lemma NoGreetingInitial(t: string)
    requires t != [] && !IsSpace(t[0]) && NotGreetingInitial(LowerChar(t[0]))
    ensures !IsGreeting(t)
  {
    var l := ToLower(t);
    assert l[0] == LowerChar(t[0]);
    TrimKeepsFirst(l);
    var lower := Trim(l);
    GreetingInitials();
    forall g | g in GREETING_WORDS
      ensures !(lower == g || StartsWith(lower, g + " ") || StartsWith(lower, g + ","))
    {
      OtherInitial(lower, g);
    }
  }

  /** Every greeting word starts with one of the letters h, s, y, m, e, a. */
  lemma GreetingInitials()
    ensures forall g :: g in GREETING_WORDS ==> g != [] && !NotGreetingInitial(g[0])
  {
  }

  /** A text whose first letter differs from a word's is not that word, nor that word followed by anything. */
  lemma OtherInitial(lower: string, g: string)
    requires lower != [] && g != [] && lower[0] != g[0]
    ensures !(lower == g || StartsWith(lower, g + " ") || StartsWith(lower, g + ","))
  {
    assert (g + " ")[0] == g[0] && (g + ",")[0] == g[0];
  }
}
