/** The normal forms of texts, said of their characters. */
module TextForms {
  import opened SliceTypes
  import opened Text

  // ---- Trimming ----

  /** The white space and line terminators of ECMA-262, sections 12.2 and 12.3, by code point. */
  lemma SpacesAre(c: char)
    ensures IsSpace(c) <==>
            var n := c as int;
            || 9 <= n <= 13 || n == 32 || n == 160 || n == 5760 || 8192 <= n <= 8202 || n == 8232
               || n == 8233 || n == 8239
            || n == 8287 || n == 12288 || n == 65279
  {
  }

  ghost predicate OnlySpace(s: string) {
    forall c :: c in s ==> IsSpace(c)
  }

  lemma {:induction false} TrimStartMeans(s: string)
    ensures exists front :: s == front + TrimStart(s) && OnlySpace(front)
    ensures TrimStart(s) != "" ==> !IsSpace(TrimStart(s)[0])
  {
    if s != "" && IsSpace(s[0]) {
      TrimStartMeans(s[1..]);
      var front :| s[1..] == front + TrimStart(s[1..]) && OnlySpace(front);
      assert s == [s[0]] + s[1..];
      assert s == ([s[0]] + front) + TrimStart(s);
      assert OnlySpace([s[0]] + front);
    } else {
      assert s == "" + TrimStart(s) && OnlySpace("");
    }
    hide IsSpace;
  }

  lemma {:induction false} TrimEndMeans(s: string)
    ensures exists back :: s == TrimEnd(s) + back && OnlySpace(back)
    ensures TrimEnd(s) != "" ==> !IsSpace(TrimEnd(s)[|TrimEnd(s)| - 1]) && TrimEnd(s)[0] == s[0]
  {
    if s != "" && IsSpace(s[|s| - 1]) {
      var init, c := s[..|s| - 1], s[|s| - 1];
      TrimEndMeans(init);
      var back :| init == TrimEnd(init) + back && OnlySpace(back);
      assert s == init + [c];
      assert s == TrimEnd(s) + (back + [c]);
      assert OnlySpace(back + [c]);
    } else {
      assert s == TrimEnd(s) + "" && OnlySpace("");
    }
    hide IsSpace;
  }

  /** Trimming drops white space at both ends, all of it, and nothing else. */
  lemma TrimMeans(s: string)
    ensures exists front, back :: s == front + Trim(s) + back && OnlySpace(front) && OnlySpace(back)
    ensures Trim(s) != "" ==> !IsSpace(Trim(s)[0]) && !IsSpace(Trim(s)[|Trim(s)| - 1])
  {
    TrimStartMeans(s);
    var front :| s == front + TrimStart(s) && OnlySpace(front);
    TrimEndMeans(TrimStart(s));
    var back :| TrimStart(s) == Trim(s) + back && OnlySpace(back);
    assert s == front + Trim(s) + back;
    hide TrimStart, TrimEnd, IsSpace;
  }

  // ---- Paths ----

  /** A letter, a colon and a slash. */
  predicate StartsWithDrive(s: string) {
    |s| >= 3 && (65 <= s[0] as int <= 90 || 97 <= s[0] as int <= 122) && s[1] == ':' && s[2] == '/'
  }

  lemma DriveIs(s: string)
    ensures StartsWithDrive(s) <==> IsDrivePath(s)
  {
  }

  /** The character after backslashes have become slashes. */
  function Slashed(c: char): char {
    if c as int == 92 then '/' else c
  }

  /** A path in normal form: slashes forward, one trailing slash dropped, in lower case if it starts with a drive. */
  lemma PathMeans(text: TextOps, value: string)
    ensures exists path :: PathOf(text.nfc(Trim(value)), path, 1)
                           && NormalizePath(text, value) == if StartsWithDrive(path) then text.lower(path) else path
  {
    var t := text.nfc(Trim(value));
    var path := StripSlash(ForwardSlashes(t));
    DriveIs(path);
    hide Trim, IsDrivePath, StartsWithDrive;
    assert PathOf(t, path, 1);
  }

  /** The text with slashes forward and without trailing slashes, at most as many as given. */
  ghost predicate PathOf(t: string, path: string, most: nat) {
    && |path| <= |t| && |t| - |path| <= most
    && (forall i :: 0 <= i < |path| ==> path[i] == Slashed(t[i]))
    && (forall i :: |path| <= i < |t| ==> Slashed(t[i]) == '/')
    && (|t| - |path| < most && path != "" ==> path[|path| - 1] != '/')
  }

  lemma {:induction false} StripSlashesMeans(s: string)
    ensures StripSlashes(s) <= s && (StripSlashes(s) != "" ==> StripSlashes(s)[|StripSlashes(s)| - 1] != '/')
    ensures forall i :: |StripSlashes(s)| <= i < |s| ==> s[i] == '/'
  {
    if s != "" && s[|s| - 1] == '/' {
      StripSlashesMeans(s[..|s| - 1]);
    }
  }

  /** Domains in lower case, files as paths without any trailing slash, all else as it was typed. */
  lemma EntityMeans(text: TextOps, entity: string, t: EntityType)
    ensures var trimmed, form := text.nfc(Trim(entity)), NormalizeEntity(text, entity, t);
            match t
            case Domain => form == text.lower(trimmed)
            case File =>
              exists path :: PathOf(trimmed, path, if |trimmed| > 1 then |trimmed| + 1 else 0)
                             && form == if StartsWithDrive(path) then text.lower(path) else path
            case App => form == trimmed
            case Url => form == trimmed
            case Unattributed => form == trimmed
  {
    if t == File {
      var trimmed := text.nfc(Trim(entity));
      var slashed := ForwardSlashes(trimmed);
      var path := if |slashed| > 1 then StripSlashes(slashed) else slashed;
      StripSlashesMeans(slashed);
      DriveIs(path);
      assert |slashed| == |trimmed| && forall i :: 0 <= i < |trimmed| ==> slashed[i] == Slashed(trimmed[i]);
      assert forall i :: 0 <= i < |path| ==> path[i] == slashed[i];
      hide Trim, IsDrivePath, StartsWithDrive, StripSlashes;
      assert PathOf(trimmed, path, if |trimmed| > 1 then |trimmed| + 1 else 0);
    }
  }

  // ---- Lengths ----

  /** Code points beyond the first plane. */
  ghost function Beyond(s: string): nat {
    if s == "" then 0 else (if s[0] as int > 65535 then 1 else 0) + Beyond(s[1..])
  }

  /** A text has one code unit for each character, and one more for each beyond the first plane. */
  lemma {:induction false} LengthMeans(s: string)
    ensures Utf16Length(s) == |s| + Beyond(s)
  {
    if s != "" { LengthMeans(s[1..]); }
  }
}
