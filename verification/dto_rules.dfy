/**
 * The request bodies the validation pipe checks, as predicates on the values
 * that arrive: SignUpDto (src/auth/dto/sign-up.dto.ts), SecurityRequestDto
 * (src/auth/dto/security.dto.ts.ts), UpdateProfileDataRequestDto and
 * UploadProfilePictureRequestDto (src/users/dto/update-profile.dto.ts).
 *
 * The regular expressions of the DTOs are given twice: as what a match
 * means (a position or a split of the string exists), and as the scan a
 * matcher performs, with a lemma that the two agree.
 */
module DtoRules {
  import opened Wrappers
  import opened Ids
  import UsersService

  /** A property of a parsed JSON body as the validators see it. */
  datatype Value = Missing | Null | Str(s: string) | NonString

  /** IsString. */
  predicate IsString(v: Value) { v.Str? }

  /** IsNotEmpty: anything but `''`, `null` and `undefined`. */
  predicate IsNotEmpty(v: Value) { v != Str("") && v != Null && v != Missing }

  /** MinLength / MaxLength on a string: its length in characters. */
  predicate LengthIn(v: Value, min: nat, max: nat)
  {
    v.Str? && min <= |v.s| <= max
  }

  // ---------------------------------------------------------------------------
  // The password lookaheads `/^(?=.*[...])/`

  datatype CharClass = Lower | Upper | Digit | Special

  predicate InClass(c: char, cls: CharClass)
  {
    match cls
    case Lower => IsAsciiLower(c)
    case Upper => IsAsciiUpper(c)
    case Digit => IsAsciiDigit(c)
    case Special => c == '!' || c == '@' || c == '#' || c == '$' || c == '%' || c == '^' || c == '&' || c == '*'
  }

  /**
   * What `^(?=.*[class])` matches: a character of the class that `.*` can
   * reach from the start, that is, one with no line terminator before it.
   */
  predicate OnFirstLine(s: string, cls: CharClass)
  {
    exists i :: 0 <= i < |s| && InClass(s[i], cls) && forall j :: 0 <= j < i ==> !IsLineTerminator(s[j])
  }

  /** The matcher: scan until a character of the class or a line terminator. */
  function ScanFirstLine(s: string, cls: CharClass): bool
  {
    if s == [] then false
    else if InClass(s[0], cls) then true
    else if IsLineTerminator(s[0]) then false
    else ScanFirstLine(s[1..], cls)
  }

  lemma {:induction false} ScanFirstLineMatches(s: string, cls: CharClass)
    ensures ScanFirstLine(s, cls) <==> OnFirstLine(s, cls)
  {
    if s == [] || InClass(s[0], cls) {
    } else if IsLineTerminator(s[0]) {
    } else {
      ScanFirstLineMatches(s[1..], cls);
      if OnFirstLine(s, cls) {
        var i :| 0 <= i < |s| && InClass(s[i], cls) && forall j :: 0 <= j < i ==> !IsLineTerminator(s[j]);
        assert i != 0;
        assert InClass(s[1..][i - 1], cls);
        assert forall j :: 0 <= j < i - 1 ==> s[1..][j] == s[j + 1];
      }
      if OnFirstLine(s[1..], cls) {
        var i :| 0 <= i < |s[1..]| && InClass(s[1..][i], cls) && forall j :: 0 <= j < i ==> !IsLineTerminator(s[1..][j]);
        assert InClass(s[i + 1], cls);
        forall j | 0 <= j < i + 1 ensures !IsLineTerminator(s[j]) {
          if j > 0 {
            assert s[j] == s[1..][j - 1];
          }
        }
      }
    }
  }

  /** Length 8 to 20, and a lowercase letter, an uppercase letter, a digit and a special character on the first line. */
  predicate StrongPassword(v: Value)
  {
    && IsString(v) && IsNotEmpty(v)
    && LengthIn(v, 8, 20)
    && OnFirstLine(v.s, Lower)
    && OnFirstLine(v.s, Upper)
    && OnFirstLine(v.s, Digit)
    && OnFirstLine(v.s, Special)
  }

  /** "Aa1!aaaa" has every class on its only line. */
  lemma StrongPasswordExample()
    ensures StrongPassword(Str("Aa1!aaaa"))
  {
    var good := "Aa1!aaaa";
    assert OnFirstLine(good, Upper) by {
      assert InClass(good[0], Upper);
    }
    assert OnFirstLine(good, Lower) by {
      assert InClass(good[1], Lower) && !IsLineTerminator(good[0]);
    }
    assert OnFirstLine(good, Digit) by {
      assert InClass(good[2], Digit) && !IsLineTerminator(good[0]) && !IsLineTerminator(good[1]);
    }
    assert OnFirstLine(good, Special) by {
      assert InClass(good[3], Special);
      assert !IsLineTerminator(good[0]) && !IsLineTerminator(good[1]) && !IsLineTerminator(good[2]);
    }
  }

  /** Special characters that come only after a line break, as in "Aa1\n!!!!", do not count. */
  lemma LineBreakHidesSpecial()
    ensures !StrongPassword(Str("Aa1\n!!!!"))
  {
    var bad := "Aa1\n!!!!";
    assert !OnFirstLine(bad, Special) by {
      ScanFirstLineMatches(bad, Special);
      assert !InClass(bad[0], Special) && !IsLineTerminator(bad[0]) && bad[1..] == "a1\n!!!!";
      assert !InClass(bad[1], Special) && !IsLineTerminator(bad[1]) && bad[1..][1..] == "1\n!!!!";
      assert !InClass(bad[2], Special) && !IsLineTerminator(bad[2]) && bad[1..][1..][1..] == "\n!!!!";
    }
  }

  // ---------------------------------------------------------------------------
  // SignUpDto

  /** IsAlphanumeric with the default locale: ASCII letters and digits only, at least one. */
  predicate IsAlphanumeric(s: string)
  {
    |s| > 0 && forall i :: 0 <= i < |s| ==> IsAsciiLower(s[i]) || IsAsciiUpper(s[i]) || IsAsciiDigit(s[i])
  }

  datatype SignUpBody = SignUpBody(username: Value, name: Value, password: Value, confirmPassword: Value)

  predicate SignUpValid(b: SignUpBody)
  {
    && IsString(b.username) && IsNotEmpty(b.username) && LengthIn(b.username, 3, 20) && IsAlphanumeric(b.username.s)
    && IsString(b.name) && IsNotEmpty(b.name)
    && StrongPassword(b.password)
    && IsString(b.confirmPassword) && IsNotEmpty(b.confirmPassword) && b.confirmPassword == b.password
  }

  /** An accepted sign-up has a 3 to 20 character alphanumeric username, a non-empty name, and a confirmation equal to a strong password. */
  lemma SignUpAccepted(b: SignUpBody)
    requires SignUpValid(b)
    ensures b.username.Str? && 3 <= |b.username.s| <= 20
    ensures forall i :: 0 <= i < |b.username.s| ==> !IsLineTerminator(b.username.s[i]) && b.username.s[i] != ' '
    ensures b.name.Str? && b.name.s != ""
    ensures b.confirmPassword == b.password && StrongPassword(b.confirmPassword)
  {
  }

  // ---------------------------------------------------------------------------
  // SecurityRequestDto

  datatype SecurityBody = SecurityBody(currentPassword: Value, newPassword: Value, confirmNewPassword: Value)

  /** The current password is only required to be a non-empty string; the new one follows the sign-up rules. */
  predicate SecurityValid(b: SecurityBody)
  {
    && IsString(b.currentPassword) && IsNotEmpty(b.currentPassword)
    && StrongPassword(b.newPassword)
    && IsString(b.confirmNewPassword) && IsNotEmpty(b.confirmNewPassword) && b.confirmNewPassword == b.newPassword
  }

  /** A password a user could sign up with is accepted as a new password, and the rule applies to the new password only. */
  lemma SecuritySharesSignUpRule(b: SecurityBody, s: SignUpBody)
    requires s.password == b.newPassword && s.confirmPassword == b.confirmNewPassword
    requires IsString(b.currentPassword) && IsNotEmpty(b.currentPassword)
    requires SignUpValid(s)
    ensures SecurityValid(b)
    ensures SecurityValid(b.(currentPassword := Str("x")))
  {
  }

  // ---------------------------------------------------------------------------
  // UpdateProfileDataRequestDto

  const UploadPath := "/image/upload/"

  /** The scheme and host alternatives of the Cloudinary pattern, each up to the slash after the host. */
  const CloudinaryPrefixes: seq<string> := ["http://res.cloudinary.com/", "https://res.cloudinary.com/", "http://cloudinary.com/", "https://cloudinary.com/"]

  /**
   * `^https?:\/\/(?:res\.cloudinary\.com|cloudinary\.com)\/[^\/]+\/image\/upload\/.*$`
   * matches `s` split as: a prefix (scheme and host and slash) ending at `p`,
   * a non-empty slash-free segment up to `k`, the upload path, and a tail
   * without line terminators reaching the end of the string.
   */
  predicate CloudinarySplit(s: string, p: nat, k: nat)
  {
    && p < k && k + |UploadPath| <= |s|
    && s[..p] in CloudinaryPrefixes
    && (forall j :: p <= j < k ==> s[j] != '/')
    && s[k..k + |UploadPath|] == UploadPath
    && (forall j :: k + |UploadPath| <= j < |s| ==> !IsLineTerminator(s[j]))
  }

  ghost predicate IsCloudinaryUrl(s: string)
  {
    exists p: nat, k: nat :: CloudinarySplit(s, p, k)
  }

  /** The first slash at or after `i`. */
  function FirstSlash(s: string, i: nat): (r: Option<nat>)
    requires i <= |s|
    ensures r.Some? ==> i <= r.value < |s| && s[r.value] == '/'
    ensures r.Some? ==> forall j :: i <= j < r.value ==> s[j] != '/'
    ensures r.None? ==> forall j :: i <= j < |s| ==> s[j] != '/'
    decreases |s| - i
  {
    if i == |s| then None
    else if s[i] == '/' then Some(i)
    else FirstSlash(s, i + 1)
  }

  /** After a prefix ending at `p`: the segment runs to the next slash, which must start the upload path. */
  function MatchPath(s: string, p: nat): bool
    requires p <= |s|
  {
    match FirstSlash(s, p)
    case None => false
    case Some(k) =>
      && p < k && k + |UploadPath| <= |s|
      && s[k..k + |UploadPath|] == UploadPath
      && forall j :: k + |UploadPath| <= j < |s| ==> !IsLineTerminator(s[j])
  }

  /** The matcher: try each alternative of the prefix in turn. */
  function MatchCloudinary(s: string, prefixes: seq<string>): bool
  {
    if prefixes == [] then false
    else
      (|prefixes[0]| <= |s| && s[..|prefixes[0]|] == prefixes[0] && MatchPath(s, |prefixes[0]|))
      || MatchCloudinary(s, prefixes[1..])
  }

  /** After a fixed prefix, the scan succeeds exactly when some split of the rest fits the pattern. */
  lemma MatchPathIffSplit(s: string, p: nat)
    requires p <= |s| && s[..p] in CloudinaryPrefixes
    ensures MatchPath(s, p) <==> exists k: nat :: CloudinarySplit(s, p, k)
  {
    if MatchPath(s, p) {
      var k := FirstSlash(s, p).value;
      assert CloudinarySplit(s, p, k);
    }
    if k: nat :| CloudinarySplit(s, p, k) {
      var f := FirstSlash(s, p);
      assert s[k] == UploadPath[0];
      assert f == Some(k);
    }
  }

  lemma {:induction false} MatchCloudinaryIffSplit(s: string, prefixes: seq<string>)
    requires forall i :: 0 <= i < |prefixes| ==> prefixes[i] in CloudinaryPrefixes
    ensures MatchCloudinary(s, prefixes) <==>
      exists p: nat, k: nat :: p <= |s| && s[..p] in prefixes && CloudinarySplit(s, p, k)
  {
    if prefixes != [] {
      var p0 := |prefixes[0]|;
      MatchCloudinaryIffSplit(s, prefixes[1..]);
      if p0 <= |s| && s[..p0] == prefixes[0] {
        MatchPathIffSplit(s, p0);
      }
      if p: nat, k: nat :| p <= |s| && s[..p] in prefixes && CloudinarySplit(s, p, k) {
        if s[..p] == prefixes[0] {
          MatchPathIffSplit(s, p0);
        } else {
          assert s[..p] in prefixes[1..];
        }
      }
    }
  }

  /** The matcher accepts exactly the URLs the pattern describes. */
  lemma MatchCloudinaryIsPattern(s: string)
    ensures MatchCloudinary(s, CloudinaryPrefixes) <==> IsCloudinaryUrl(s)
  {
    MatchCloudinaryIffSplit(s, CloudinaryPrefixes);
  }

  /** Every string of the described shape is accepted: any alternative, any non-empty slash-free segment, any single-line tail. */
  lemma CloudinaryUrlOf(i: nat, segment: string, tail: string)
    requires i < |CloudinaryPrefixes|
    requires segment != [] && '/' !in segment
    requires forall j :: 0 <= j < |tail| ==> !IsLineTerminator(tail[j])
    ensures IsCloudinaryUrl(CloudinaryPrefixes[i] + segment + UploadPath + tail)
  {
    var prefix := CloudinaryPrefixes[i];
    var s := prefix + segment + UploadPath + tail;
    var p := |prefix|;
    var k := p + |segment|;
    assert s[..p] == prefix;
    assert forall j :: p <= j < k ==> s[j] == segment[j - p];
    assert s[k..k + |UploadPath|] == UploadPath;
    assert forall j :: k + |UploadPath| <= j < |s| ==> s[j] == tail[j - k - |UploadPath|];
    assert CloudinarySplit(s, p, k);
  }

  /** IsLowercase: the string equals its lower-case form. */
  predicate IsLowercase(s: string)
  {
    AsciiLowerString(s) == s
  }

  lemma IsLowercaseNoUpper(s: string)
    ensures IsLowercase(s) <==> forall i :: 0 <= i < |s| ==> !IsAsciiUpper(s[i])
  {
    if !IsLowercase(s) {
      var i :| 0 <= i < |s| && AsciiLowerString(s)[i] != s[i];
      assert IsAsciiUpper(s[i]);
    }
  }

  datatype UpdateProfileBody = UpdateProfileBody(avatarUrl: Value, username: Value, name: Value, about: Value)

  /** IsOptional: a missing or null avatar URL skips its rules. */
  ghost predicate AvatarUrlValid(v: Value)
  {
    v.Missing? || v.Null? || (IsString(v) && IsCloudinaryUrl(v.s))
  }

  ghost predicate UpdateProfileValid(b: UpdateProfileBody)
  {
    && AvatarUrlValid(b.avatarUrl)
    && IsString(b.username) && IsNotEmpty(b.username) && IsLowercase(b.username.s) && LengthIn(b.username, 0, 20)
    && IsString(b.name) && IsNotEmpty(b.name) && LengthIn(b.name, 0, 50)
    && IsString(b.about) && LengthIn(b.about, 0, 140)
  }

  /** The accepted body as the service receives it. */
  function ToProfileUpdate(b: UpdateProfileBody): (u: UsersService.ProfileUpdate)
    requires UpdateProfileValid(b)
    ensures u.username == b.username.s && u.name == b.name.s && u.about == b.about.s
    ensures b.avatarUrl.Missing? <==> u.avatarUrl.Undefined?
    ensures b.avatarUrl.Null? <==> u.avatarUrl.Null?
    ensures u.avatarUrl.Url? ==> b.avatarUrl == Str(u.avatarUrl.url) && IsCloudinaryUrl(u.avatarUrl.url)
  {
    UsersService.ProfileUpdate(
      b.username.s, b.name.s, b.about.s,
      match b.avatarUrl
      case Str(url) => UsersService.Url(url)
      case Null => UsersService.Null
      case _ => UsersService.Undefined)
  }

  /** What reaches the service: a lowercase username of 1 to 20 characters, a name of 1 to 50, an about of at most 140, and an avatar URL that is absent, null or a Cloudinary upload URL. */
  lemma UpdateProfileAccepted(b: UpdateProfileBody)
    requires UpdateProfileValid(b)
    ensures var u := ToProfileUpdate(b);
      && 1 <= |u.username| <= 20 && (forall i :: 0 <= i < |u.username| ==> !IsAsciiUpper(u.username[i]))
      && 1 <= |u.name| <= 50
      && |u.about| <= 140
      && (u.avatarUrl.Url? ==> MatchCloudinary(u.avatarUrl.url, CloudinaryPrefixes))
  {
    var u := ToProfileUpdate(b);
    IsLowercaseNoUpper(u.username);
    if u.avatarUrl.Url? {
      MatchCloudinaryIsPattern(u.avatarUrl.url);
    }
  }

  // ---------------------------------------------------------------------------
  // UploadProfilePictureRequestDto

  /** An uploaded file as the form-data parser stores it. */
  datatype FileMeta = FileMeta(size: nat, mimeType: string)

  const MaxAvatarSize: nat := 5 * 1024 * 1024
  const AvatarMimeTypes: seq<string> := ["image/png", "image/jpeg", "image/webp"]

  /** IsFile, MaxFileSize and HasMimeType. */
  predicate UploadAvatarValid(avatarImage: Option<FileMeta>)
  {
    avatarImage.Some? && avatarImage.value.size <= MaxAvatarSize && avatarImage.value.mimeType in AvatarMimeTypes
  }

  /** A file of exactly 5 MiB passes; one byte more, or a GIF, does not. */
  lemma UploadLimits()
    ensures MaxAvatarSize == 5242880
    ensures UploadAvatarValid(Some(FileMeta(5242880, "image/webp")))
    ensures !UploadAvatarValid(Some(FileMeta(5242881, "image/png")))
    ensures !UploadAvatarValid(Some(FileMeta(1, "image/gif")))
    ensures !UploadAvatarValid(None)
  {
    assert "image/gif" != AvatarMimeTypes[0] && "image/gif" != AvatarMimeTypes[1] && "image/gif" != AvatarMimeTypes[2];
  }
}
