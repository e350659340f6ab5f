/** The server's cross-origin allow-list (backend/server.js): two
    environment values joined by a comma, split on commas, each field
    trimmed and stripped of one trailing slash; a request origin is then
    accepted when it is absent or equals an entry exactly. */
module Cors {
  import opened Common
  import opened JsString

  /** `String(v)` as string concatenation applies it to an environment
      variable: an unset variable contributes the text "undefined". */
  function EnvText(v: Option<string>): string {
    if v.Some? then v.value else "undefined"
  }

  /** One allow-list entry: trimmed, then one trailing `/` removed. */
  function NormaliseOrigin(field: string): (r: string)
    ensures var t := Trim(field);
      if |t| > 0 && t[|t| - 1] == '/' then r + "/" == t else r == t
  {
    StripTrailingSlash(Trim(field))
  }

  function MapNormalise(fields: seq<string>): (r: seq<string>)
    ensures |r| == |fields|
    ensures forall i :: 0 <= i < |fields| ==> r[i] == NormaliseOrigin(fields[i])
  {
    if fields == [] then [] else [NormaliseOrigin(fields[0])] + MapNormalise(fields[1..])
  }

  /** The allow-list built from the text of the two variables: one entry
      per comma field of either, so at least two. */
  function AllowListOf(frontendText: string, backendText: string): (r: seq<string>)
    ensures |r| == |Split(frontendText, ',')| + |Split(backendText, ',')|
    ensures |r| >= 2
  {
    SplitCommaJoined(frontendText, backendText);
    MapNormalise(Split(frontendText + "," + backendText, ','))
  }

  /** Splitting two texts joined by a comma splits each of them. */
  lemma SplitCommaJoined(f: string, b: string)
    ensures Split(f + "," + b, ',') == Split(f, ',') + Split(b, ',')
  {
    var fs, bs := Split(f, ','), Split(b, ',');
    JoinSplit(f, ',');
    JoinSplit(b, ',');
    JoinAppend(fs, bs, ',');
    SplitFieldsFree(f, ',');
    SplitFieldsFree(b, ',');
    assert Join(fs + bs, ',') == f + "," + b;
    assert SeparatorFree(fs + bs, ',');
    SplitJoin(fs + bs, ',');
  }

  /** The allow-list built once at start-up from the front-end and back-end
      URL variables. */
  function AllowedOrigins(frontendUrl: Option<string>, backendUrl: Option<string>): seq<string> {
    AllowListOf(EnvText(frontendUrl), EnvText(backendUrl))
  }

  datatype CorsDecision = Allow | Reject

  /** The `origin` callback: no origin (or an empty one) is allowed; any
      other origin is allowed only when it equals an entry as sent, without
      being normalised itself. */
  function DecideOrigin(origin: Option<string>, allowed: seq<string>): (r: CorsDecision)
    ensures r == Reject <==> origin.Some? && origin.value != "" && origin.value !in allowed
  {
    if !Truthy(origin) then Allow
    else if origin.value in allowed then Allow
    else Reject
  }

  /** Joining two non-empty field lists puts one separator between them. */
  lemma {:induction false} JoinAppend(a: seq<string>, b: seq<string>, sep: char)
    requires |a| >= 1 && |b| >= 1
    ensures Join(a + b, sep) == Join(a, sep) + [sep] + Join(b, sep)
  {
    if |a| == 1 {
      assert (a + b)[1..] == b;
    } else {
      JoinAppend(a[1..], b, sep);
      JoinUncons(a, b, sep);
      RegroupSeparated(Join(a + b, sep), Join(a, sep), a[0] + [sep], Join(a[1..], sep), [sep], Join(b, sep));
    }
  }

  /** Proof helper: joining fields of which there are at least two starts with the first
      field and a separator, also when more fields follow. */
  lemma JoinUncons(a: seq<string>, b: seq<string>, sep: char)
    requires |a| >= 2 && |b| >= 1
    ensures Join(a + b, sep) == (a[0] + [sep]) + Join(a[1..] + b, sep)
    ensures Join(a, sep) == (a[0] + [sep]) + Join(a[1..], sep)
  {
    assert (a + b)[0] == a[0] && (a + b)[1..] == a[1..] + b;
  }

  /** The allow-list is each variable's own comma fields, normalised, the
      front-end's first. */
  lemma AllowListFromBothVariables(f: string, b: string)
    ensures AllowListOf(f, b) == MapNormalise(Split(f, ',') + Split(b, ','))
  {
    SplitCommaJoined(f, b);
  }

  /** With comma-free variables the allow-list has exactly two entries, one
      per variable. */
  lemma TwoEntryAllowList(f: string, b: string)
    requires ',' !in f && ',' !in b
    ensures AllowListOf(f, b) == [NormaliseOrigin(f), NormaliseOrigin(b)]
  {
    AllowListFromBothVariables(f, b);
    SplitWithoutSeparator(f, ',');
    SplitWithoutSeparator(b, ',');
    assert Split(f, ',') + Split(b, ',') == [f, b];
    MapNormalisePair(f, b);
  }

  lemma MapNormalisePair(f: string, b: string)
    ensures MapNormalise([f, b]) == [NormaliseOrigin(f), NormaliseOrigin(b)]
  {
    var r := MapNormalise([f, b]);
    assert |r| == 2 && r[0] == NormaliseOrigin(f) && r[1] == NormaliseOrigin(b);
  }

  /** A string without the separator splits into itself alone. */
  lemma SplitWithoutSeparator(s: string, sep: char)
    requires sep !in s
    ensures Split(s, sep) == [s]
  {
    assert SeparatorFree([s], sep);
    SplitJoin([s], sep);
  }

  /** An unset variable puts the literal entry "undefined" in the list, so a
      request whose Origin header is "undefined" is let through. */
  lemma UnsetVariableAllowsUndefined(frontendUrl: Option<string>, backendUrl: Option<string>)
    requires frontendUrl.None? || backendUrl.None?
    ensures "undefined" in AllowedOrigins(frontendUrl, backendUrl)
    ensures DecideOrigin(Some("undefined"), AllowedOrigins(frontendUrl, backendUrl)) == Allow
  {
    var f, b := EnvText(frontendUrl), EnvText(backendUrl);
    AllowListFromBothVariables(f, b);
    var fs, bs := Split(f, ','), Split(b, ',');
    var u := "undefined";
    UndefinedEntry();
    if frontendUrl.None? {
      assert MapNormalise(fs + bs)[0] == u;
    } else {
      assert MapNormalise(fs + bs)[|fs|] == u;
    }
  }

  /** The text "undefined" is one field and is its own normal form. */
  lemma UndefinedEntry()
    ensures Split("undefined", ',') == ["undefined"]
    ensures NormaliseOrigin("undefined") == "undefined"
  {
    var u := "undefined";
    assert u[0] == 'u' && u[|u| - 1] == 'd';
    assert TrimStart(u) == u;
    assert TrimEnd(u) == u;
    assert ',' !in u by {
      forall k | 0 <= k < |u| ensures u[k] != ',' {
      }
    }
    SplitWithoutSeparator(u, ',');
  }

  /** A request that sends the configured front-end URL, trimmed and without
      its trailing slash, is allowed; a request without an Origin is always
      allowed. */
  lemma ConfiguredOriginAllowed(frontendUrl: string, backendUrl: Option<string>)
    requires ',' !in frontendUrl
    ensures DecideOrigin(Some(NormaliseOrigin(frontendUrl)), AllowedOrigins(Some(frontendUrl), backendUrl)) == Allow
    ensures DecideOrigin(None, AllowedOrigins(Some(frontendUrl), backendUrl)) == Allow
  {
    var b := EnvText(backendUrl);
    AllowListFromBothVariables(frontendUrl, b);
    SplitWithoutSeparator(frontendUrl, ',');
    var fs, bs := Split(frontendUrl, ','), Split(b, ',');
    assert MapNormalise(fs + bs)[0] == NormaliseOrigin(frontendUrl);
  }

  /** The incoming origin is compared as sent: with the front-end configured
      as `host + "/"`, the origin `host` passes but `host + "/"` itself does
      not (unless the back-end entry happens to equal it). */
  lemma IncomingOriginNotNormalised(host: string, backendUrl: Option<string>)
    requires host != [] && !IsWhitespace(host[0]) && ',' !in host
    requires ',' !in EnvText(backendUrl)
    requires NormaliseOrigin(EnvText(backendUrl)) != host + "/"
    ensures DecideOrigin(Some(host), AllowedOrigins(Some(host + "/"), backendUrl)) == Allow
    ensures DecideOrigin(Some(host + "/"), AllowedOrigins(Some(host + "/"), backendUrl)) == Reject
  {
    var f, b := host + "/", EnvText(backendUrl);
    assert ',' !in f;
    TwoEntryAllowList(f, b);
    SlashedHostNormalises(host);
    var allowed := AllowedOrigins(Some(f), backendUrl);
    assert allowed == [host, NormaliseOrigin(b)];
    assert f != host by {
      assert |f| == |host| + 1;
    }
  }

  /** A host that starts with a non-blank character, with one slash added,
      normalises back to the host. */
  lemma SlashedHostNormalises(host: string)
    requires host != [] && !IsWhitespace(host[0])
    ensures NormaliseOrigin(host + "/") == host
  {
    var f := host + "/";
    assert f[0] == host[0] && f[|f| - 1] == '/';
    assert TrimStart(f) == f;
    assert TrimEnd(f) == f;
    assert f[..|f| - 1] == host;
  }
}
