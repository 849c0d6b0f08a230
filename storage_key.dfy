/**
 * The storage key and public URL of an uploaded file (`index.mjs`, the
 * upload handler): the date folder taken from the request's ISO-8601
 * timestamp, the file name with every unit outside `[A-Za-z0-9.]` replaced
 * by `_`, the key `domainId/dateFolder/name`, and the virtual-hosted-style
 * URL of the object in its bucket.
 */
module StorageKey {
  import opened JsText

  const Slash: CodeUnit := 0x2F          // '/'
  const Dot: CodeUnit := 0x2E            // '.'
  const Underscore: CodeUnit := 0x5F     // '_'
  const DateSeparator: CodeUnit := 0x54  // 'T'

  /** The units the sanitiser's character class `[a-zA-Z0-9.]` matches. */
  predicate IsKept(u: CodeUnit) {
    || (0x61 <= u <= 0x7A)  // 'a' to 'z'
    || (0x41 <= u <= 0x5A)  // 'A' to 'Z'
    || (0x30 <= u <= 0x39)  // '0' to '9'
    || u == Dot
  }

  /** The units a sanitised name may contain: `[A-Za-z0-9._]`. */
  predicate IsSafe(u: CodeUnit) {
    IsKept(u) || u == Underscore
  }

  /** `fileName.replace(/[^a-zA-Z0-9.]/g, "_")`: without the `u` flag the
      regular expression matches single code units, so the replacement is one
      for one and a character outside the Basic Multilingual Plane (a
      surrogate pair) becomes two underscores. */
  function Sanitize(s: JsString): (r: JsString)
    ensures |r| == |s|
    ensures forall i :: 0 <= i < |r| ==> IsSafe(r[i])
  {
    seq(|s|, i requires 0 <= i < |s| => if IsKept(s[i]) then s[i] else Underscore)
  }

  /** At each position a unit of `[A-Za-z0-9.]` is kept and any other unit
      becomes `_`. */
  lemma SanitizeAt(s: JsString, i: nat)
    requires i < |s|
    ensures IsKept(s[i]) ==> Sanitize(s)[i] == s[i]
    ensures !IsKept(s[i]) ==> Sanitize(s)[i] == Underscore
  {
  }

  /** Sanitising a sanitised name changes nothing. */
  lemma SanitizeIdempotent(s: JsString)
    ensures Sanitize(Sanitize(s)) == Sanitize(s)
  {
  }

  /** A name is left unchanged exactly when it already consists of safe
      units; in particular an underscore stays an underscore. */
  lemma SanitizeFixedPoint(s: JsString)
    ensures Sanitize(s) == s <==> forall i :: 0 <= i < |s| ==> IsSafe(s[i])
  {
  }

  /** The sanitiser works unit by unit, so it distributes over concatenation. */
  lemma SanitizeConcat(a: JsString, b: JsString)
    ensures Sanitize(a + b) == Sanitize(a) + Sanitize(b)
  {
  }

  /** A character outside the Basic Multilingual Plane, such as an emoji,
      turns into two underscores, one per code unit. */
  lemma SanitizeAstral(c: char)
    requires (c as int) >= 0x1_0000
    ensures Sanitize(Utf16([c])) == [Underscore, Underscore]
  {
  }

  /** The sanitised name has no `/`, so it is a single path segment. */
  lemma SanitizeNoSlash(s: JsString)
    ensures Slash !in Sanitize(s)
  {
  }

  /** An illustration: spaces and parentheses are replaced, letters and the
      dot are kept. */
  lemma SanitizeExample()
    ensures Sanitize(Bmp("My Report (Final).pdf")) == Bmp("My_Report__Final_.pdf")
  {
  }

  /** Distinct file names can share a sanitised name, so a later upload on
      the same day for the same domain overwrites an earlier one. */
  lemma SanitizeCollision()
    ensures Bmp("a b") != Bmp("a_b")
    ensures Sanitize(Bmp("a b")) == Sanitize(Bmp("a_b"))
  {
    assert Bmp("a b")[1] != Bmp("a_b")[1];
  }

  /** The dot is kept, so the name `..` survives sanitising. */
  lemma SanitizeKeepsDotDot()
    ensures Sanitize(Bmp("..")) == Bmp("..")
  {
  }

  /** `new Date().toISOString().split("T")[0]`, with the timestamp passed in:
      the part of the timestamp before its first `T`. */
  function DateFolder(isoNow: JsString): (r: JsString)
    ensures DateSeparator !in r
    ensures r <= isoNow
    ensures |r| < |isoNow| ==> isoNow[|r|] == DateSeparator
  {
    PrefixBefore(isoNow, DateSeparator)
  }

  /** For a timestamp `day + "T" + time` the folder is the calendar day. */
  lemma DateFolderOfTimestamp(day: JsString, time: JsString)
    requires DateSeparator !in day
    ensures DateFolder(day + [DateSeparator] + time) == day
  {
    PrefixBeforeFirstField(day, DateSeparator, time);
  }

  /** The folder of the timestamp 2024-05-01T12:30:00.000Z. The timestamp
      comes in as a parameter fixed by `requires`: written into the call,
      the literal makes Dafny unfold `PrefixBefore` unit by unit and run out
      of resources. */
  lemma DateFolderExample(isoNow: JsString)
    requires isoNow == Bmp("2024-05-01T12:30:00.000Z")
    ensures DateFolder(isoNow) == Bmp("2024-05-01")
  {
    var day, time := Bmp("2024-05-01"), Bmp("12:30:00.000Z");
    assert isoNow == day + [DateSeparator] + time;
    DateFolderOfTimestamp(day, time);
  }

  /** The object key `${domainId}/${dateFolder}/${formattedFileName}`: it
      begins with the domain identifier, used as given, and a slash, and it
      ends with a slash and the sanitised file name. */
  function S3Key(domainId: JsString, isoNow: JsString, fileName: JsString): (r: JsString)
    ensures |r| == |domainId| + |DateFolder(isoNow)| + |fileName| + 2
    ensures r[..|domainId| + 1] == domainId + [Slash]
    ensures r[|r| - |fileName| - 1..] == [Slash] + Sanitize(fileName)
  {
    domainId + [Slash] + DateFolder(isoNow) + [Slash] + Sanitize(fileName)
  }

  /** What follows the key's last `/` is the sanitised file name. */
  lemma S3KeyLastSegment(domainId: JsString, isoNow: JsString, fileName: JsString)
    ensures SuffixAfterLast(S3Key(domainId, isoNow, fileName), Slash) == Sanitize(fileName)
  {
    SanitizeNoSlash(fileName);
    SuffixAfterLastField(domainId + [Slash] + DateFolder(isoNow), Slash, Sanitize(fileName));
  }

  /** For a domain identifier without `/`, what precedes the key's first `/`
      is the domain identifier. */
  lemma S3KeyFirstSegment(domainId: JsString, isoNow: JsString, fileName: JsString)
    requires Slash !in domainId
    ensures PrefixBefore(S3Key(domainId, isoNow, fileName), Slash) == domainId
  {
    var rest := DateFolder(isoNow) + [Slash] + Sanitize(fileName);
    assert S3Key(domainId, isoNow, fileName) == domainId + [Slash] + rest;
    PrefixBeforeFirstField(domainId, Slash, rest);
  }

  /** Two requests on the same UTC day for the same domain and file name
      get the same key, whatever the time of day. */
  lemma S3KeySameDay(domainId: JsString, day: JsString, time1: JsString, time2: JsString, fileName: JsString)
    requires DateSeparator !in day
    ensures S3Key(domainId, day + [DateSeparator] + time1, fileName)
         == S3Key(domainId, day + [DateSeparator] + time2, fileName)
         == domainId + [Slash] + day + [Slash] + Sanitize(fileName)
  {
    DateFolderOfTimestamp(day, time1);
    DateFolderOfTimestamp(day, time2);
  }

  /** For domain identifiers without `/`, the key determines the domain, the
      date folder and the sanitised name (the folder may itself hold `/`). */
  lemma S3KeyInjective(d1: JsString, iso1: JsString, f1: JsString, d2: JsString, iso2: JsString, f2: JsString)
    requires Slash !in d1 && Slash !in d2
    requires S3Key(d1, iso1, f1) == S3Key(d2, iso2, f2)
    ensures d1 == d2
    ensures DateFolder(iso1) == DateFolder(iso2)
    ensures Sanitize(f1) == Sanitize(f2)
  {
    S3KeyFirstSegment(d1, iso1, f1);
    S3KeyFirstSegment(d2, iso2, f2);
    S3KeyLastSegment(d1, iso1, f1);
    S3KeyLastSegment(d2, iso2, f2);
    MiddleField(d1, DateFolder(iso1), Sanitize(f1));
    MiddleField(d2, DateFolder(iso2), Sanitize(f2));
  }

  /** The folder sits between the first and the second added slash. */
  lemma MiddleField(a: JsString, m: JsString, b: JsString)
    ensures var s := a + [Slash] + m + [Slash] + b;
            |s| == |a| + |m| + |b| + 2 && s[|a| + 1..|a| + 1 + |m|] == m
  {
  }

  /** The key for the domain `tenantA`, the timestamp
      2024-05-01T12:30:00.000Z and the file "My Report (Final).pdf". The
      inputs come in as parameters fixed by `requires`: with the literals
      written into the call, Dafny unfolds `PrefixBefore` on them unit by
      unit and runs out of resources. */
  lemma S3KeyExample(domainId: JsString, isoNow: JsString, fileName: JsString)
    requires domainId == Bmp("tenantA")
    requires isoNow == Bmp("2024-05-01T12:30:00.000Z")
    requires fileName == Bmp("My Report (Final).pdf")
    ensures S3Key(domainId, isoNow, fileName) == Bmp("tenantA/2024-05-01/My_Report__Final_.pdf")
  {
    DateFolderExample(isoNow);
    SanitizeExample();
    assert "tenantA/2024-05-01/My_Report__Final_.pdf" == "tenantA/2024-05-01/" + "My_Report__Final_.pdf";
    BmpConcat("tenantA/2024-05-01/", "My_Report__Final_.pdf");
    assert Bmp("tenantA/2024-05-01/") == Bmp("tenantA") + [Slash] + Bmp("2024-05-01") + [Slash];
  }

  /** The key is not confined to its domain's prefix: the domain identifier
      is not sanitised, and a file named `..` keeps that name as the key's
      last segment. */
  lemma S3KeyNotTraversalSafe(isoNow: JsString)
    ensures SuffixAfterLast(S3Key(Bmp("a"), isoNow, Bmp("..")), Slash) == Bmp("..")
    ensures S3Key(Bmp("../b"), isoNow, Bmp("x"))[..4] == Bmp("../b")
  {
    S3KeyLastSegment(Bmp("a"), isoNow, Bmp(".."));
    SanitizeKeepsDotDot();
  }

  /** `https://${BUCKET}.s3.${resolvedRegion}.amazonaws.com/${s3Key}`: the
      URL starts with `https://` and the bucket name, and ends with `/` and
      the key. */
  function FileUrl(bucket: JsString, region: JsString, key: JsString): (url: JsString)
    ensures |url| >= 9 + |bucket| + |key|
    ensures url[..8] == Bmp("https://")
    ensures url[8..8 + |bucket|] == bucket
    ensures url[|url| - |key| - 1..] == [Slash] + key
  {
    Bmp("https://") + bucket + Bmp(".s3.") + region + Bmp(".amazonaws.com/") + key
  }
}
