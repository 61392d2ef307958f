/** The pure helpers of lib/utils.ts: invite-code generation, deadline
    arithmetic, initials, the e-mail shape check, password rules, image
    acceptance and slugs. */
module Utils {
  import opened JsText

  // ---------------------------------------------------------------------
  // Invite codes

  const InviteLetters := "ABCDEFGHIJKLMNOPQRSTUVWXYZ"
  const InviteDigits := "0123456789"
  /** `ABCDEFGHIJKLMNOPQRSTUVWXYZ0123456789`. */
  const InviteAlphabet := InviteLetters + InviteDigits
  const InviteCodeLength := 8

  /** `Math.floor(Math.random() * chars.length)` for a draw `r` in [0, 1). */
  function Pick(r: real): (k: int)
    requires 0.0 <= r < 1.0
    ensures 0 <= k < |InviteAlphabet|
  {
    (r * 36.0).Floor
  }

  /** One draw of `Math.random()` per character of the code. */
  predicate ValidDraws(draws: seq<real>)
  {
    |draws| == InviteCodeLength && forall i :: 0 <= i < |draws| ==> 0.0 <= draws[i] < 1.0
  }

  /** The code that the draws select: character `i` is the alphabet entry
      that draw `i` picks. */
  function InviteCodeFrom(draws: seq<real>): (code: string)
    requires ValidDraws(draws)
    ensures |code| == InviteCodeLength
    ensures forall i :: 0 <= i < |code| ==> code[i] in InviteAlphabet
    ensures forall i :: 0 <= i < |code| ==> IsAsciiUpper(code[i]) || IsAsciiDigit(code[i])
  {
    AlphabetChars();
    seq(InviteCodeLength, i requires 0 <= i < InviteCodeLength => InviteAlphabet[Pick(draws[i])])
  }

  /** `generateInviteCode`: appends one picked character per iteration. */
  method GenerateInviteCode(draws: seq<real>) returns (code: string)
    requires ValidDraws(draws)
    ensures code == InviteCodeFrom(draws)
    ensures |code| == 8
    ensures forall i :: 0 <= i < |code| ==> IsAsciiUpper(code[i]) || IsAsciiDigit(code[i])
  {
    code := "";
    for i := 0 to InviteCodeLength
      invariant code == InviteCodeFrom(draws)[..i]
    {
      assert InviteCodeFrom(draws)[..i + 1] == InviteCodeFrom(draws)[..i] + [InviteAlphabet[Pick(draws[i])]];
      code := code + [InviteAlphabet[Pick(draws[i])]];
    }
    assert code == InviteCodeFrom(draws);
    AlphabetChars();
  }

  lemma AlphabetChars()
    ensures forall c :: c in InviteAlphabet ==> IsAsciiUpper(c) || IsAsciiDigit(c)
  {
    assert forall c :: c in InviteLetters ==> IsAsciiUpper(c);
    assert forall c :: c in InviteDigits ==> IsAsciiDigit(c);
  }

  /** Upper-casing a code drawn from the alphabet leaves it unchanged. */
  lemma {:induction false} UpperCodeUnchanged(code: string)
    requires forall i :: 0 <= i < |code| ==> code[i] in InviteAlphabet
    ensures ToUpper(code) == code
  {
    AlphabetChars();
    assert forall i :: 0 <= i < |code| ==> UpperChar(code[i]) == code[i];
  }

  // ---------------------------------------------------------------------
  // Deadlines

  /** Milliseconds in a day, `1000 * 60 * 60 * 24`. */
  const DayMs := 86_400_000

  /** `isOverdue`: the deadline lies strictly before `now`. */
  predicate IsOverdue(deadline: int, now: int)
  {
    deadline < now
  }

  /** `getDaysUntil`: `Math.ceil((deadline - now) / DayMs)`. */
  function DaysUntil(deadline: int, now: int): (days: int)
    ensures (days - 1) * DayMs < deadline - now <= days * DayMs
    ensures deadline == now ==> days == 0
    ensures days < 0 ==> IsOverdue(deadline, now)
    ensures IsOverdue(deadline, now) <==> days <= 0 && deadline != now
  {
    -((now - deadline) / DayMs)
  }

  // ---------------------------------------------------------------------
  // Initials

  /** `.map(word => word[0]).join('')`: an empty word's `word[0]` is
      undefined and joins as nothing. */
  function Heads(words: seq<string>): string
  {
    if words == [] then ""
    else (if words[0] == "" then "" else [words[0][0]]) + Heads(words[1..])
  }

  /** `getInitials`: split on spaces, first characters, upper-case, first two. */
  function Initials(name: string): (r: string)
    ensures |r| <= 2
  {
    var joined := ToUpper(Heads(Split(name, ' ')));
    if |joined| <= 2 then joined else joined[..2]
  }

  /** Reference definition: the characters of `s` that begin a word, that is
      a non-space character at the start or right after a space. `atStart`
      says whether the previous character was a space (or there was none). */
  function WordStarts(s: string, atStart: bool): string
  {
    if s == [] then ""
    else (if atStart && s[0] != ' ' then [s[0]] else "") + WordStarts(s[1..], s[0] == ' ')
  }

  lemma {:induction false} HeadsAreWordStarts(s: string)
    ensures Heads(Split(s, ' ')) == WordStarts(s, true)
    ensures Heads(Split(s, ' ')[1..]) == WordStarts(s, false)
  {
    if s != [] {
      HeadsAreWordStarts(s[1..]);
      var rest := Split(s[1..], ' ');
      if s[0] == ' ' {
        assert Split(s, ' ') == [""] + rest;
        assert (Split(s, ' '))[1..] == rest;
      } else {
        var w := Split(s, ' ');
        assert w == [[s[0]] + rest[0]] + rest[1..];
        assert w[1..] == rest[1..];
        assert Heads(w) == [s[0]] + Heads(rest[1..]);
      }
    }
  }

  /** The initials are the upper-cased first characters of the first two
      non-empty space-separated words; repeated spaces contribute nothing. */
  lemma InitialsAreWordStarts(name: string)
    ensures var starts := ToUpper(WordStarts(name, true));
      Initials(name) == if |starts| <= 2 then starts else starts[..2]
  {
    HeadsAreWordStarts(name);
  }

  // ---------------------------------------------------------------------
  // E-mail shape: /^[^\s@]+@[^\s@]+\.[^\s@]+$/

  predicate AtomChar(c: char) { !IsWhitespace(c) && c != '@' }

  predicate AllAtom(s: string)
  {
    forall k :: 0 <= k < |s| ==> AtomChar(s[k])
  }

  /** Reference: the language of the regular expression, with explicit
      positions `i` of the `@` and `j` of the `.` chosen by backtracking. */
  ghost predicate MatchesEmailRegex(s: string)
  {
    exists i, j :: 0 < i < j - 1 && j + 1 < |s| && s[i] == '@' && s[j] == '.'
      && AllAtom(s[..i]) && AllAtom(s[i + 1..j]) && AllAtom(s[j + 1..])
  }

  function IndexOf(s: string, c: char): (r: int)
    ensures -1 <= r < |s|
    ensures r >= 0 ==> s[r] == c && c !in s[..r]
    ensures r < 0 ==> c !in s
  {
    if s == [] then -1
    else if s[0] == c then 0
    else
      var k := IndexOf(s[1..], c);
      assert s == [s[0]] + s[1..];
      if k < 0 then -1
      else
        assert s[..k + 1] == [s[0]] + s[1..][..k];
        k + 1
  }

  predicate HasInnerDot(d: string)
  {
    exists k :: 0 < k < |d| - 1 && d[k] == '.'
  }

  /** `isvalidEmail`: no whitespace, one `@` with text before it, and after
      it a `.` with text on both sides. */
  predicate IsValidEmail(email: string)
  {
    && (forall k :: 0 <= k < |email| ==> !IsWhitespace(email[k]))
    && var i := IndexOf(email, '@');
    && i > 0
    && '@' !in email[i + 1..]
    && HasInnerDot(email[i + 1..])
  }

  lemma EmailCheckSound(s: string)
    requires IsValidEmail(s)
    ensures MatchesEmailRegex(s)
  {
    var i := IndexOf(s, '@');
    var d := s[i + 1..];
    var k :| 0 < k < |d| - 1 && d[k] == '.';
    var j := i + 1 + k;
    assert s[j] == '.';
    assert AllAtom(s[..i]);
    var b := s[i + 1..j];
    assert forall m :: 0 <= m < |b| ==> b[m] == d[m];
    assert AllAtom(b);
    var c := s[j + 1..];
    assert forall m :: 0 <= m < |c| ==> c[m] == d[k + 1 + m];
    assert AllAtom(c);
  }

  lemma EmailCheckComplete(s: string)
    requires MatchesEmailRegex(s)
    ensures IsValidEmail(s)
  {
    var i, j :| 0 < i < j - 1 && j + 1 < |s| && s[i] == '@' && s[j] == '.'
      && AllAtom(s[..i]) && AllAtom(s[i + 1..j]) && AllAtom(s[j + 1..]);
    forall k | 0 <= k < |s| ensures !IsWhitespace(s[k]) && (k != i ==> s[k] != '@') {
      if k < i {
        assert s[k] == s[..i][k];
      } else if i < k < j {
        assert s[k] == s[i + 1..j][k - i - 1];
      } else if j < k {
        assert s[k] == s[j + 1..][k - j - 1];
      }
    }
    var d := s[i + 1..];
    assert d[j - i - 1] == '.';
    assert '@' !in d by {
      forall m | 0 <= m < |d| ensures d[m] != '@' {
        assert d[m] == s[i + 1 + m];
      }
    }
  }

  /** The check accepts exactly the strings the regular expression matches. */
  lemma EmailCheckIsRegex(s: string)
    ensures IsValidEmail(s) <==> MatchesEmailRegex(s)
  {
    if IsValidEmail(s) { EmailCheckSound(s); }
    if MatchesEmailRegex(s) { EmailCheckComplete(s); }
  }

  // ---------------------------------------------------------------------
  // Passwords

  const PasswordTooShort := "Password minimal 8 karakter"
  const PasswordNeedsUpper := "Harus ada huruf besar"
  const PasswordNeedsLower := "Harus ada huruf kecil"
  const PasswordNeedsDigit := "Harus ada angka"

  /** The rule messages in the order the rules are checked. */
  const PasswordRules := [PasswordTooShort, PasswordNeedsUpper, PasswordNeedsLower, PasswordNeedsDigit]

  predicate HasUpper(s: string) { exists i :: 0 <= i < |s| && IsAsciiUpper(s[i]) }
  predicate HasLower(s: string) { exists i :: 0 <= i < |s| && IsAsciiLower(s[i]) }
  predicate HasDigit(s: string) { exists i :: 0 <= i < |s| && IsAsciiDigit(s[i]) }

  /** Whether rule `k` (in `PasswordRules` order) rejects the password. */
  predicate RuleFails(password: string, k: nat)
  {
    match k
    case 0 => |password| < 8
    case 1 => !HasUpper(password)
    case 2 => !HasLower(password)
    case 3 => !HasDigit(password)
    case _ => false
  }

  /** The position of a message in `PasswordRules`, or 4 for any other text. */
  function RuleIndex(e: string): nat
  {
    if e == PasswordTooShort then 0
    else if e == PasswordNeedsUpper then 1
    else if e == PasswordNeedsLower then 2
    else if e == PasswordNeedsDigit then 3
    else 4
  }

  datatype Strength = Weak | Medium | Strong

  datatype PasswordCheck = PasswordCheck(isValid: bool, errors: seq<string>, strength: Strength)

  /** `validatePassword`: pushes one message per failed rule, then grades. */
  method ValidatePassword(password: string) returns (result: PasswordCheck)
    ensures forall k :: 0 <= k < 4 ==> (PasswordRules[k] in result.errors <==> RuleFails(password, k))
    ensures forall e :: e in result.errors ==> e in PasswordRules
    ensures forall i, j :: 0 <= i < j < |result.errors| ==>
      RuleIndex(result.errors[i]) < RuleIndex(result.errors[j])
    ensures result.isValid <==> result.errors == []
    ensures result.isValid <==> |password| >= 8 && HasUpper(password) && HasLower(password) && HasDigit(password)
    ensures result.strength == Weak <==> !result.isValid
    ensures result.strength == Strong <==> result.isValid && |password| >= 12
    ensures result.strength == Medium <==> result.isValid && |password| < 12
  {
    var errors: seq<string> := [];
    if |password| < 8 {
      errors := errors + [PasswordTooShort];
    }
    if !HasUpper(password) {
      errors := errors + [PasswordNeedsUpper];
    }
    if !HasLower(password) {
      errors := errors + [PasswordNeedsLower];
    }
    if !HasDigit(password) {
      errors := errors + [PasswordNeedsDigit];
    }
    var strength := Weak;
    if |errors| == 0 {
      strength := if |password| >= 12 then Strong else Medium;
    }
    result := PasswordCheck(|errors| == 0, errors, strength);
  }

  // ---------------------------------------------------------------------
  // Image files

  /** `1024 * 1024 * 2` bytes. */
  const MaxImageSize := 2_097_152
  const AllowedImageTypes := ["image/jpeg", "image/jpg", "image/png", "image/webp"]
  const WrongTypeMessage := "Format file harus JPG, PNG, atau WebP"

  /** The size message embeds a formatted size and is not modelled as text. */
  datatype ImageError = WrongType | TooLarge(size: int)

  datatype ImageCheck = Accepted | Rejected(reason: ImageError)

  /** `validateImageFile`: the type is checked before the size. */
  function ValidateImageFile(fileType: string, size: int): (r: ImageCheck)
    ensures r.Accepted? <==> fileType in AllowedImageTypes && size <= MaxImageSize
    ensures fileType !in AllowedImageTypes ==> r == Rejected(WrongType)
    ensures r == Rejected(TooLarge(size)) <==> fileType in AllowedImageTypes && size > MaxImageSize
  {
    if fileType !in AllowedImageTypes then Rejected(WrongType)
    else if size > MaxImageSize then Rejected(TooLarge(size))
    else Accepted
  }

  // ---------------------------------------------------------------------
  // Slugs

  /** `\w` or `-`: the characters `/[^\w\-]+/g` keeps. */
  predicate WordOrHyphen(c: char)
  {
    IsAsciiUpper(c) || IsAsciiLower(c) || IsAsciiDigit(c) || c == '_' || c == '-'
  }

  /** What a slug is made of: lower-case letters, digits, `_` and `-`. */
  predicate SlugChar(c: char)
  {
    IsAsciiLower(c) || IsAsciiDigit(c) || c == '_' || c == '-'
  }

  predicate IsHyphen(c: char) { c == '-' }

  /** `.replace(/[^\w\-]+/g, '')`. */
  function StripNonWord(s: string): (r: string)
    ensures |r| <= |s|
    ensures forall i :: 0 <= i < |r| ==> WordOrHyphen(r[i]) && r[i] in s
  {
    if s == [] then ""
    else (if WordOrHyphen(s[0]) then [s[0]] else "") + StripNonWord(s[1..])
  }

  function DropWhile(s: string, p: char -> bool): (r: string)
    ensures |r| <= |s|
    ensures r == s[|s| - |r|..]
    ensures r != [] ==> !p(r[0])
  {
    if s != [] && p(s[0]) then DropWhile(s[1..], p) else s
  }

  /** `.replace(/x+/g, rep)` for a character class `inRun`: every maximal
      run of such characters becomes one `rep`. */
  function CollapseRuns(s: string, inRun: char -> bool, rep: char): string
    decreases |s|
  {
    if s == [] then ""
    else if inRun(s[0]) then [rep] + CollapseRuns(DropWhile(s[1..], inRun), inRun, rep)
    else [s[0]] + CollapseRuns(s[1..], inRun, rep)
  }

  /** `slugify`. */
  function Slugify(text: string): string
  {
    var lower := ToLower(text);
    var kept := StripNonWord(lower);
    var dashed := CollapseRuns(kept, IsWhitespace, '-');
    var single := CollapseRuns(dashed, IsHyphen, '-');
    Trim(single)
  }

  predicate NoDoubleHyphen(s: string)
  {
    forall i :: 0 <= i < |s| - 1 ==> !(s[i] == '-' && s[i + 1] == '-')
  }

  predicate AllChars(s: string, p: char -> bool)
  {
    forall i :: 0 <= i < |s| ==> p(s[i])
  }

  lemma {:induction false} CollapseKeeps(s: string, inRun: char -> bool, rep: char, p: char -> bool)
    requires AllChars(s, p) && p(rep)
    ensures AllChars(CollapseRuns(s, inRun, rep), p)
    decreases |s|
  {
    if s != [] {
      if inRun(s[0]) {
        CollapseKeeps(DropWhile(s[1..], inRun), inRun, rep, p);
      } else {
        CollapseKeeps(s[1..], inRun, rep, p);
      }
    }
  }

  /** A string with no character of the class is left as it is. */
  lemma {:induction false} CollapseIdle(s: string, inRun: char -> bool, rep: char)
    requires forall i :: 0 <= i < |s| ==> !inRun(s[i])
    ensures CollapseRuns(s, inRun, rep) == s
  {
    if s != [] {
      CollapseIdle(s[1..], inRun, rep);
    }
  }

  /** After collapsing hyphen runs no two hyphens are adjacent, and the
      result starts with a hyphen exactly when the input does. */
  lemma {:induction false} CollapseHyphensSingle(s: string)
    ensures NoDoubleHyphen(CollapseRuns(s, IsHyphen, '-'))
    ensures var r := CollapseRuns(s, IsHyphen, '-');
      (r != [] && r[0] == '-') <==> (s != [] && s[0] == '-')
    decreases |s|
  {
    if s != [] {
      if s[0] == '-' {
        var t := DropWhile(s[1..], IsHyphen);
        CollapseHyphensSingle(t);
      } else {
        CollapseHyphensSingle(s[1..]);
      }
    }
  }

  /** Collapsing hyphen runs changes nothing when no two hyphens touch. */
  lemma {:induction false} CollapseHyphensIdle(s: string)
    requires NoDoubleHyphen(s)
    ensures CollapseRuns(s, IsHyphen, '-') == s
  {
    if s != [] {
      CollapseHyphensIdle(s[1..]);
      if s[0] == '-' {
        assert DropWhile(s[1..], IsHyphen) == s[1..];
      }
    }
  }

  lemma {:induction false} StripIdle(s: string)
    requires AllChars(s, WordOrHyphen)
    ensures StripNonWord(s) == s
  {
    if s != [] {
      StripIdle(s[1..]);
      assert s == [s[0]] + s[1..];
    }
  }

  lemma TrimIdle(s: string)
    requires forall i :: 0 <= i < |s| ==> !IsWhitespace(s[i])
    ensures Trim(s) == s
  {
  }

  lemma LowerIdle(s: string)
    requires AllChars(s, SlugChar)
    ensures ToLower(s) == s
  {
  }

  lemma SlugCharsAreWordChars()
    ensures forall c :: SlugChar(c) ==> WordOrHyphen(c) && !IsWhitespace(c)
    ensures forall c :: WordOrHyphen(c) ==> !IsWhitespace(c)
  {
  }

  /** A slug uses only `a-z0-9_-`, holds no whitespace, and never has two
      hyphens in a row. */
  lemma SlugShape(text: string)
    ensures AllChars(Slugify(text), SlugChar)
    ensures NoDoubleHyphen(Slugify(text))
    ensures ' ' !in Slugify(text)
  {
    var lower := ToLower(text);
    var kept := StripNonWord(lower);
    SlugCharsAreWordChars();
    CollapseIdle(kept, IsWhitespace, '-');
    assert forall c :: c in lower ==> !IsAsciiUpper(c);
    assert AllChars(kept, SlugChar);
    var single := CollapseRuns(kept, IsHyphen, '-');
    CollapseKeeps(kept, IsHyphen, '-', SlugChar);
    CollapseHyphensSingle(kept);
    TrimIdle(single);
  }

  lemma ToLowerAppend(a: string, b: string)
    ensures ToLower(a + b) == ToLower(a) + ToLower(b)
  {
    assert forall i :: 0 <= i < |a + b| ==> ToLower(a + b)[i] == (ToLower(a) + ToLower(b))[i];
  }

  lemma {:induction false} StripAppend(a: string, b: string)
    ensures StripNonWord(a + b) == StripNonWord(a) + StripNonWord(b)
  {
    if a == [] {
      assert a + b == b;
    } else {
      var h := if WordOrHyphen(a[0]) then [a[0]] else "";
      assert (a + b)[1..] == a[1..] + b;
      calc {
        StripNonWord(a + b);
        h + StripNonWord(a[1..] + b);
        { StripAppend(a[1..], b); }
        h + (StripNonWord(a[1..]) + StripNonWord(b));
        (h + StripNonWord(a[1..])) + StripNonWord(b);
        StripNonWord(a) + StripNonWord(b);
      }
    }
  }

  /** Slugify depends on its input only through the stripped lower case. */
  lemma SlugifyByKept(t: string, u: string)
    requires StripNonWord(ToLower(t)) == StripNonWord(ToLower(u))
    ensures Slugify(t) == Slugify(u)
  {
  }

  /** A space is deleted rather than turned into a hyphen: `/[^\w\-]+/g`
      removes it before `/\s+/g` could see it. */
  lemma SlugDropsSpace(x: string, y: string)
    ensures Slugify(x + " " + y) == Slugify(x + y)
  {
    var lx, ly := ToLower(x), ToLower(y);
    ToLowerAppend(x + " ", y);
    ToLowerAppend(x, " ");
    ToLowerAppend(x, y);
    assert ToLower(" ") == " ";
    assert StripNonWord(" ") == "" by {
      assert " "[1..] == "";
    }
    calc {
      StripNonWord(ToLower(x + " " + y));
      StripNonWord(lx + " " + ly);
      { StripAppend(lx + " ", ly); }
      StripNonWord(lx + " ") + StripNonWord(ly);
      { StripAppend(lx, " "); }
      StripNonWord(lx) + StripNonWord(ly);
      { StripAppend(lx, ly); }
      StripNonWord(ToLower(x + y));
    }
    SlugifyByKept(x + " " + y, x + y);
  }

  /** Slugifying a slug gives it back. */
  lemma SlugifyIdempotent(text: string)
    ensures Slugify(Slugify(text)) == Slugify(text)
  {
    var s := Slugify(text);
    SlugShape(text);
    SlugCharsAreWordChars();
    LowerIdle(s);
    StripIdle(s);
    CollapseIdle(s, IsWhitespace, '-');
    CollapseHyphensIdle(s);
    TrimIdle(s);
  }
}
