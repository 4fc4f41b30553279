/**
 Text handling shared by rules and entities. Strings are sequences of Unicode
 scalar values; NFC and locale lower-casing are supplied by the caller.
 */
module Text {
  import opened SliceTypes

  datatype TextOps = TextOps(nfc: string -> string, lower: string -> string)

  /** White space and line terminators of ECMA-262, sections 12.2 and 12.3, which `trim` removes. */
  predicate IsSpace(c: char) {
    || '\U{0009}' <= c <= '\U{000D}' || c == ' ' || c == '\U{00A0}' || c == '\U{1680}' || '\U{2000}' <= c <= '\U{200A}'
    || c == '\U{2028}' || c == '\U{2029}' || c == '\U{202F}' || c == '\U{205F}' || c == '\U{3000}' || c == '\U{FEFF}'
  }

  function TrimStart(s: string): string {
    if s != "" && IsSpace(s[0]) then TrimStart(s[1..]) else s
  }

  function TrimEnd(s: string): string {
    if s != "" && IsSpace(s[|s| - 1]) then TrimEnd(s[..|s| - 1]) else s
  }

  function Trim(s: string): string {
    TrimEnd(TrimStart(s))
  }

  function ForwardSlashes(s: string): string {
    seq(|s|, i requires 0 <= i < |s| => if s[i] == '\\' then '/' else s[i])
  }

  function StripSlash(s: string): string {
    if s != "" && s[|s| - 1] == '/' then s[..|s| - 1] else s
  }

  function StripSlashes(s: string): string {
    if s != "" && s[|s| - 1] == '/' then StripSlashes(s[..|s| - 1]) else s
  }

  predicate IsDrivePath(s: string) {
    |s| >= 3 && ('a' <= s[0] <= 'z' || 'A' <= s[0] <= 'Z') && s[1] == ':' && s[2] == '/'
  }

  function LowerDrive(text: TextOps, s: string): string {
    if IsDrivePath(s) then text.lower(s) else s
  }

  /** normalizePath of the classification model: strips one trailing slash. */
  function NormalizePath(text: TextOps, value: string): string {
    LowerDrive(text, StripSlash(ForwardSlashes(text.nfc(Trim(value)))))
  }

  /** normalizeEntity of the importer for the given entity type: strips every trailing slash of a file path. */
  function NormalizeEntity(text: TextOps, entity: string, entityType: EntityType): string {
    var trimmed := text.nfc(Trim(entity));
    match entityType
    case Domain => text.lower(trimmed)
    case File =>
      var slashed := ForwardSlashes(trimmed);
      LowerDrive(text, if |slashed| > 1 then StripSlashes(slashed) else slashed)
    case _ => trimmed
  }

  /** Length in UTF-16 code units, the unit of the source's string lengths. */
  function Utf16Length(s: string): nat {
    if s == "" then 0 else (if s[0] as int >= 0x1_0000 then 2 else 1) + Utf16Length(s[1..])
  }

  lemma {:induction false} Utf16Append(a: string, b: string)
    ensures Utf16Length(a + b) == Utf16Length(a) + Utf16Length(b)
  {
    if a == "" {
      assert a + b == b;
    } else {
      assert (a + b)[1..] == a[1..] + b;
      Utf16Append(a[1..], b);
    }
  }

  lemma {:induction false} Utf16Positive(s: string)
    ensures Utf16Length(s) >= |s|
  {
    if s != "" { Utf16Positive(s[1..]); }
  }

  /** Prefixes of one text with the same code-unit length are the same prefix. */
  lemma EqualPrefixes(a: string, b: string, text: string)
    requires a <= text && b <= text && Utf16Length(a) == Utf16Length(b)
    ensures a == b
  {
    var short, long := if |a| <= |b| then a else b, if |a| <= |b| then b else a;
    assert short + long[|short|..] == long;
    Utf16Append(short, long[|short|..]);
    Utf16Positive(long[|short|..]);
  }
}
