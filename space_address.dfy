/**
 * GradioClient::parseSpaceAddress: how the address a user types becomes the SpaceInfo
 * the client sends its requests to. Five rules are tried in order: a local or tunnelled
 * server, a huggingface.co page, an hf.space subdomain, the `user/model` shorthand, and
 * otherwise an error.
 */
module SpaceAddress {
  import opened JuceString

  /** SpaceInfo::Status. */
  datatype Status = Localhost | HuggingFace | Gradio | Error

  datatype SpaceInfo = SpaceInfo(
    status: Status,
    gradio: string,        // the base URL the requests go to
    huggingface: string,   // the huggingface.co page of the space
    userInput: string,     // the address exactly as it was typed
    modelName: string,
    userName: string,
    error: string)

  const HuggingFaceBaseUrl := "https://huggingface.co/spaces/"

  /** Four dot-separated parts followed by a port: an IPv4 address with a port, roughly. */
  const LocalWildcard := "*.*.*.*:*"

  /** Rule 1: the address is served locally or through a gradio.live tunnel. */
  predicate IsLocalAddress(address: string) {
    Contains(address, "localhost") || Contains(address, "gradio.live")
    || MatchesWildcard(address, LocalWildcard, true)
  }

  /** What rules 2 to 5 make of a non-local address: a user and model with their status, or a message. */
  datatype Split = Parts(user: string, model: string, status: Status) | Malformed(message: string)

  function SplitAddress(address: string): Split {
    if Contains(address, HuggingFaceBaseUrl) then
      var parts := FromTokens(FromFirstOccurrenceOf(address, HuggingFaceBaseUrl), '/');
      if |parts| >= 2 then Parts(parts[0], parts[1], HuggingFace)
      else Malformed("Detected huggingface.co URL but could not parse user and model. Too few parts in "
                     + address)
    else if Contains(address, "hf.space") then
      var subdomain := UpToFirstOccurrenceOf(FromFirstOccurrenceOf(address, "://"), ".hf.space");
      var hyphen := IndexOfChar(subdomain, '-');
      if hyphen != -1 then Parts(subdomain[..hyphen], subdomain[hyphen + 1..], Gradio)
      else Malformed("Detected hf.space URL but could not parse user and model. No hyphen found in the subdomain: "
                     + subdomain)
    else if Contains(address, "/") && !Contains(address, "http") then
      var parts := FromTokens(address, '/');
      if |parts| == 2 then Parts(parts[0], parts[1], HuggingFace)
      else Malformed("Detected user/model URL but could not parse user and model. Too many/few slashes in "
                     + address)
    else
      Malformed("Invalid URL: " + address + ". URL does not match any of the expected patterns.")
  }

  /** The hf.space address of a space: where its gradio server answers. */
  function GradioUrl(user: string, model: string): string {
    "https://" + user + "-" + model + ".hf.space"
  }

  /** The huggingface.co page of a space. */
  function HuggingFaceUrl(user: string, model: string): string {
    HuggingFaceBaseUrl + user + "/" + model
  }

  const UnknownErrorPrefix := "Unkown error while parsing the space address: "

  /**
   * parseSpaceAddress(address, info). The space info is updated, not rebuilt: a failure
   * leaves the URLs and names of the previous address in place, and a success keeps the
   * previous error message.
   */
  function ParseSpaceAddress(address: string, info: SpaceInfo): (r: SpaceInfo)
    ensures r.userInput == address
    ensures r.status == Localhost <==> IsLocalAddress(address)
    ensures r.status == Error ==> r == info.(userInput := address, status := Error, error := r.error)
    ensures r.status != Error ==> r.error == info.error
    ensures r.status == Localhost ==> r == info.(userInput := address, gradio := address, huggingface := address, status := Localhost)
  {
    if IsLocalAddress(address) then
      info.(userInput := address, gradio := address, huggingface := address, status := Localhost)
    else
      match SplitAddress(address)
      case Malformed(message) =>
        info.(userInput := address, error := message, status := Error)
      case Parts(user, model, status) =>
        if user != "" && model != "" then
          var underscored := Replace(model, '-', '_');
          var hyphenated := Replace(underscored, '_', '-');
          info.(userInput := address, status := status,
                huggingface := HuggingFaceUrl(user, underscored),
                gradio := GradioUrl(user, hyphenated),
                userName := user, modelName := hyphenated)
        else
          info.(userInput := address, error := UnknownErrorPrefix + address, status := Error)
  }

  /** Parsing the same address twice changes nothing the first parse did not. */
  lemma ParseIsIdempotent(address: string, info: SpaceInfo)
    ensures ParseSpaceAddress(address, ParseSpaceAddress(address, info)) == ParseSpaceAddress(address, info)
  {
  }

  /** A parse that names a space depends on the address alone; only the error text is carried over. */
  lemma SuccessIgnoresPrevious(address: string, info: SpaceInfo, other: SpaceInfo)
    requires ParseSpaceAddress(address, info).status in {HuggingFace, Gradio}
    ensures ParseSpaceAddress(address, other) == ParseSpaceAddress(address, info).(error := other.error)
  {
  }

  /**
   * A parse that names a space yields both URLs of that one space: the page URL
   * spells the model with underscores, the gradio URL and the model name with hyphens.
   */
  lemma SuccessShape(address: string, info: SpaceInfo)
    requires ParseSpaceAddress(address, info).status in {HuggingFace, Gradio}
    ensures var r := ParseSpaceAddress(address, info);
      r.userName != "" && r.modelName != "" && '_' !in r.modelName
      && r.gradio == GradioUrl(r.userName, r.modelName)
      && r.huggingface == HuggingFaceUrl(r.userName, Replace(r.modelName, '-', '_'))
  {
    var model := SplitAddress(address).model;
    ReplaceThenBack(model, '-', '_');
    ReplaceThenBack(model, '_', '-');
    ReplaceRemoves(model, '_', '-');
  }

  /** Rule 2: a huggingface.co page URL names the first two path segments after the base URL. */
  lemma HuggingFacePageRule(address: string, info: SpaceInfo)
    requires !IsLocalAddress(address) && Contains(address, HuggingFaceBaseUrl)
    ensures var parts := FromTokens(FromFirstOccurrenceOf(address, HuggingFaceBaseUrl), '/');
      var r := ParseSpaceAddress(address, info);
      (|parts| < 2 ==>
         r.status == Error
         && r.error == "Detected huggingface.co URL but could not parse user and model. Too few parts in " + address)
      && (r.status == HuggingFace <==> |parts| >= 2 && parts[0] != "" && parts[1] != "")
      && (r.status == HuggingFace ==> r.userName == parts[0] && r.modelName == Replace(parts[1], '_', '-'))
  {
    var parts := FromTokens(FromFirstOccurrenceOf(address, HuggingFaceBaseUrl), '/');
    if |parts| >= 2 {
      ReplaceThenBack(parts[1], '-', '_');
    }
  }

  /**
   * Rule 3: an hf.space URL is split at the first hyphen of what lies between "://" and
   * ".hf.space". Without "://" that part is empty, so the address is refused.
   */
  lemma SubdomainRule(address: string, info: SpaceInfo)
    requires !IsLocalAddress(address) && !Contains(address, HuggingFaceBaseUrl) && Contains(address, "hf.space")
    ensures var subdomain := UpToFirstOccurrenceOf(FromFirstOccurrenceOf(address, "://"), ".hf.space");
      var r := ParseSpaceAddress(address, info);
      ('-' !in subdomain ==>
         r.status == Error
         && r.error == "Detected hf.space URL but could not parse user and model. No hyphen found in the subdomain: "
                       + subdomain)
      && ('-' in subdomain ==>
            var h := IndexOfChar(subdomain, '-');
            0 <= h < |subdomain| && '-' !in subdomain[..h]
            && (r.status == Gradio <==> 0 < h < |subdomain| - 1)
            && (r.status == Gradio ==>
                  r.userName == subdomain[..h] && r.modelName == Replace(subdomain[h + 1..], '_', '-')))
      && (!Contains(address, "://") ==> r.status == Error)
  {
    var subdomain := UpToFirstOccurrenceOf(FromFirstOccurrenceOf(address, "://"), ".hf.space");
    if '-' in subdomain {
      IndexOfCharFirst(subdomain, '-');
      var h := IndexOfChar(subdomain, '-');
      ReplaceThenBack(subdomain[h + 1..], '-', '_');
    } else {
      IndexOfCharAbsent(subdomain, '-');
    }
  }

  /** Rule 4: `user/model` without "http" must hold exactly one slash with text on both sides. */
  lemma ShorthandRule(address: string, info: SpaceInfo)
    requires !IsLocalAddress(address) && !Contains(address, HuggingFaceBaseUrl) && !Contains(address, "hf.space")
    requires Contains(address, "/") && !Contains(address, "http")
    ensures var parts := FromTokens(address, '/');
      var r := ParseSpaceAddress(address, info);
      (|parts| == 2 <==> Count('/', address) == 1)
      && (|parts| != 2 ==>
            r.status == Error
            && r.error == "Detected user/model URL but could not parse user and model. Too many/few slashes in "
                          + address)
      && (r.status == HuggingFace <==> |parts| == 2 && parts[0] != "" && parts[1] != "")
      && (r.status == HuggingFace ==> address == r.userName + "/" + parts[1]
                                      && r.modelName == Replace(parts[1], '_', '-'))
  {
    var parts := FromTokens(address, '/');
    assert address != [] by {
      assert OccursAt(address, "/", IndexOf(address, "/"));
    }
    if |parts| == 2 {
      assert Join(parts, '/') == parts[0] + ['/'] + Join(parts[1..], '/');
      assert parts[1..] == [parts[1]];
      ReplaceThenBack(parts[1], '-', '_');
    }
  }

  /** Rule 5: an address no rule recognises is refused with a message quoting it. */
  lemma UnrecognisedRule(address: string, info: SpaceInfo)
    requires !IsLocalAddress(address) && !Contains(address, HuggingFaceBaseUrl) && !Contains(address, "hf.space")
    requires !Contains(address, "/") || Contains(address, "http")
    ensures var r := ParseSpaceAddress(address, info);
      r.status == Error && r.error == "Invalid URL: " + address + ". URL does not match any of the expected patterns."
  {
  }

  /** The IPv4-with-port wildcard of rule 1 accepts exactly the texts holding three dots and then a colon. */
  lemma LocalWildcardMeaning(address: string)
    ensures MatchesWildcard(address, LocalWildcard, true) <==> IsSubsequence("...:", address)
  {
    var cs := "...:";
    assert StarPattern(cs[3..]) == "*:*" by {
      assert cs[3..][1..] == [];
    }
    assert StarPattern(cs[2..]) == "*.*:*" by {
      assert cs[2..][1..] == cs[3..];
    }
    assert StarPattern(cs[1..]) == "*.*.*:*" by {
      assert cs[1..][1..] == cs[2..];
    }
    assert StarPattern(cs) == LocalWildcard;
    StarPatternMatches(cs, address, true);
  }

  /** Three dots before a colon need at least three dots. */
  lemma FewDotsNotLocal(address: string)
    requires Count('.', address) < 3
    ensures !MatchesWildcard(address, LocalWildcard, true)
  {
    assert Count('.', ":") == 0;
    assert Count('.', "..:") == 2 by {
      assert "..:"[1..] == ".:";
      assert ".:"[1..] == ":";
    }
    assert Count('.', "...:") == 3 by {
      assert "...:"[1..] == "..:";
    }
    LocalWildcardMeaning(address);
    if IsSubsequence("...:", address) {
      SubsequenceCount("...:", address, '.');
    }
  }

  /** A user or model name that cannot look like a local address or break a URL apart. */
  predicate PlainName(name: string) {
    '.' !in name && '/' !in name && !Contains(name, "localhost")
  }

  /** "localhost" cannot straddle the scheme, which has no 'l'. */
  lemma NoLocalhostAfterScheme(address: string, rest: string)
    requires address == "https://" + rest && !Contains(rest, "localhost")
    ensures !Contains(address, "localhost")
  {
    if Contains(address, "localhost") {
      OccurrenceReachesTail("https://", rest, "localhost", IndexOf(address, "localhost"), 0);
    }
  }

  lemma {:induction false} GradioUrlNoLocalhost(user: string, model: string)
    requires !Contains(user, "localhost") && !Contains(model, "localhost")
    ensures !Contains(GradioUrl(user, model), "localhost")
  {
    var rest := user + ['-'] + (model + ['.'] + ("hf" + ['.'] + "space"));
    if Contains(rest, "localhost") {
      ContainsAcrossSeparator(user, '-', model + ['.'] + ("hf" + ['.'] + "space"), "localhost");
      ContainsAcrossSeparator(model, '.', "hf" + ['.'] + "space", "localhost");
      ContainsAcrossSeparator("hf", '.', "space", "localhost");
    }
    assert GradioUrl(user, model) == "https://" + rest;
    NoLocalhostAfterScheme(GradioUrl(user, model), rest);
  }

  lemma {:induction false} GradioUrlNoTunnel(user: string, model: string)
    requires '.' !in user && '.' !in model
    ensures !Contains(GradioUrl(user, model), "gradio.live")
  {
    var g := GradioUrl(user, model);
    var front := "https://" + user + "-" + model;
    assert g == front + ".hf.space";
    if Contains(g, "gradio.live") {
      var p := IndexOf(g, "gradio.live");
      OccurrenceReachesTail(front, ".hf.space", "gradio.live", p, 6);
      OccurrenceHasChar(".hf.space", "gradio.live"[6..], p + 6 - |front|, 'l');
    }
  }

  lemma SuffixDots()
    ensures Count('.', ".hf.space") == 2
  {
    CountAbsent('.', "space");
    assert ".hf.space"[1..] == "hf.space";
    assert "hf.space"[1..] == "f.space";
    assert "f.space"[1..] == ".space";
    assert ".space"[1..] == "space";
  }

  lemma GradioUrlDots(user: string, model: string)
    requires '.' !in user && '.' !in model
    ensures Count('.', GradioUrl(user, model)) == 2
  {
    var front := "https://" + user + "-" + model;
    assert GradioUrl(user, model) == front + ".hf.space";
    CountAbsent('.', front);
    CountConcat('.', front, ".hf.space");
    SuffixDots();
  }

  /** The page base URL has slashes after its scheme, so it cannot occur where there are none. */
  lemma NoPageAfterScheme(address: string, rest: string)
    requires address == "https://" + rest && '/' !in rest
    ensures !Contains(address, HuggingFaceBaseUrl)
  {
    if Contains(address, HuggingFaceBaseUrl) {
      var p := IndexOf(address, HuggingFaceBaseUrl);
      OccurrenceReachesTail("https://", rest, HuggingFaceBaseUrl, p, 9);
      OccurrenceHasChar(rest, HuggingFaceBaseUrl[9..], p + 9 - 8, '/');
    }
  }

  lemma GradioUrlNotPage(user: string, model: string)
    requires '/' !in user && '/' !in model
    ensures !Contains(GradioUrl(user, model), HuggingFaceBaseUrl)
  {
    var rest := user + "-" + model + ".hf.space";
    assert GradioUrl(user, model) == "https://" + rest;
    NoPageAfterScheme(GradioUrl(user, model), rest);
  }

  lemma GradioUrlNotLocal(user: string, model: string)
    requires PlainName(user) && PlainName(model)
    ensures !IsLocalAddress(GradioUrl(user, model))
    ensures !Contains(GradioUrl(user, model), HuggingFaceBaseUrl)
  {
    GradioUrlNoLocalhost(user, model);
    GradioUrlNoTunnel(user, model);
    GradioUrlDots(user, model);
    FewDotsNotLocal(GradioUrl(user, model));
    GradioUrlNotPage(user, model);
  }

  /** After "https://" the first "://" is the scheme's own. */
  lemma SchemeSkipped(address: string, rest: string)
    requires address == "https://" + rest
    ensures FromFirstOccurrenceOf(address, "://") == rest
  {
    assert address == "https" + ("://" + rest);
    assert address[5..8] == "://";
    KeyStartsAfter("https", "://" + rest, "://");
    IndexOfIsFirst(address, "://", 5);
  }

  /** A dot-free text followed by ".hf.space" is cut back to itself. */
  lemma SubdomainBeforeSuffix(subdomain: string, rest: string)
    requires rest == subdomain + ".hf.space" && '.' !in subdomain
    ensures UpToFirstOccurrenceOf(rest, ".hf.space") == subdomain
  {
    assert rest[|subdomain|..|subdomain| + 9] == ".hf.space";
    KeyStartsAfter(subdomain, ".hf.space", ".hf.space");
    IndexOfIsFirst(rest, ".hf.space", |subdomain|);
  }

  lemma EndsInHfSpace(address: string, front: string)
    requires address == front + "hf.space"
    ensures Contains(address, "hf.space")
  {
    assert address[|front|..] == "hf.space";
    ContainsWhenOccurs(address, "hf.space", |front|);
  }

  lemma GradioUrlSplits(user: string, model: string)
    ensures GradioUrl(user, model) == "https://" + (user + "-" + model + ".hf.space")
    ensures GradioUrl(user, model) == ("https://" + user + "-" + model + ".") + "hf.space"
  {
  }

  /** Between "://" and ".hf.space" of a gradio URL lie the user and the model, joined by a hyphen. */
  lemma GradioUrlSubdomain(user: string, model: string)
    requires '.' !in user && '.' !in model
    ensures Contains(GradioUrl(user, model), "hf.space")
    ensures UpToFirstOccurrenceOf(FromFirstOccurrenceOf(GradioUrl(user, model), "://"), ".hf.space")
            == user + "-" + model
  {
    GradioUrlSplits(user, model);
    SchemeSkipped(GradioUrl(user, model), user + "-" + model + ".hf.space");
    SubdomainBeforeSuffix(user + "-" + model, user + "-" + model + ".hf.space");
    EndsInHfSpace(GradioUrl(user, model), "https://" + user + "-" + model + ".");
  }

  /**
   * Rule 3 inverts GradioUrl: a gradio URL built from a hyphen-free user and a plain
   * model parses back to that user and model, whatever the space info held before.
   */
  lemma {:induction false} ParseGradioUrl(user: string, model: string, other: SpaceInfo)
    requires user != "" && model != "" && '-' !in user && '_' !in model
    requires PlainName(user) && PlainName(model)
    ensures ParseSpaceAddress(GradioUrl(user, model), other)
         == other.(userInput := GradioUrl(user, model), status := Gradio, gradio := GradioUrl(user, model),
                   huggingface := HuggingFaceUrl(user, Replace(model, '-', '_')),
                   userName := user, modelName := model)
  {
    var g := GradioUrl(user, model);
    GradioUrlNotLocal(user, model);
    GradioUrlSubdomain(user, model);
    var subdomain := user + "-" + model;
    assert subdomain[..|user|] == user;
    assert subdomain[|user| + 1..] == model;
    IndexOfCharAt(subdomain, '-', |user|);
    assert SplitAddress(g) == Parts(user, model, Gradio);
    ReplaceThenBack(model, '-', '_');
    ReplaceAbsent(model, '_', '-');
  }

  /** Reparsing the gradio URL of a successful parse names the same space again. */
  lemma GradioUrlRoundTrip(address: string, info: SpaceInfo, other: SpaceInfo)
    requires ParseSpaceAddress(address, info).status in {HuggingFace, Gradio}
    requires var r := ParseSpaceAddress(address, info);
      '-' !in r.userName && PlainName(r.userName) && PlainName(r.modelName)
    ensures var r := ParseSpaceAddress(address, info);
      var again := ParseSpaceAddress(r.gradio, other);
      again.status == Gradio && again.userName == r.userName && again.modelName == r.modelName
      && again.gradio == r.gradio && again.huggingface == r.huggingface
  {
    var r := ParseSpaceAddress(address, info);
    SuccessShape(address, info);
    ParseGradioUrl(r.userName, r.modelName, other);
  }

  /**
   * The split at the first hyphen cannot tell a hyphen in the user from the one the
   * gradio URL puts after it: a hyphenated user never comes back.
   */
  lemma HyphenatedUserIsSplit(user: string, model: string, other: SpaceInfo)
    requires '-' in user && PlainName(user) && PlainName(model)
    ensures var again := ParseSpaceAddress(GradioUrl(user, model), other);
      !(again.status == Gradio && again.userName == user)
  {
    GradioUrlNotLocal(user, model);
    GradioUrlSubdomain(user, model);
    FirstHyphenInUser(user, model);
  }

  lemma FirstHyphenInUser(user: string, model: string)
    requires '-' in user
    ensures IndexOfChar(user + "-" + model, '-') == IndexOfChar(user, '-') < |user|
  {
    assert user + "-" + model == user + ("-" + model);
    IndexOfCharFirst(user, '-');
    IndexOfInPrefix(user, "-" + model, "-");
  }

  lemma PageUrlPieces(user: string, model: string)
    ensures HuggingFaceUrl(user, model)
         == "https:" + ['/'] + "" + ['/'] + "huggingface.co" + ['/'] + "spaces" + ['/'] + user + ['/'] + model
    ensures HuggingFaceUrl(user, model) == HuggingFaceBaseUrl + (user + ['/'] + model)
  {
  }

  /** A slash-free key longer than "spaces" occurs in a page URL only inside one of its segments. */
  lemma {:induction false} KeyNotInPageUrl(user: string, model: string, key: string)
    requires '/' !in key && |key| > 6 && !Contains("huggingface.co", key)
    requires !Contains(user, key) && !Contains(model, key)
    ensures !Contains(HuggingFaceUrl(user, model), key)
  {
    PageUrlPieces(user, model);
    if Contains(HuggingFaceUrl(user, model), key) {
      ContainsAcrossSeparator("https:" + ['/'] + "" + ['/'] + "huggingface.co" + ['/'] + "spaces" + ['/'] + user,
                              '/', model, key);
      ContainsAcrossSeparator("https:" + ['/'] + "" + ['/'] + "huggingface.co" + ['/'] + "spaces", '/', user, key);
      ContainsAcrossSeparator("https:" + ['/'] + "" + ['/'] + "huggingface.co", '/', "spaces", key);
      ContainsAcrossSeparator("https:" + ['/'] + "", '/', "huggingface.co", key);
      ContainsAcrossSeparator("https:", '/', "", key);
    }
  }

  lemma OneLeadingDot(tail: string)
    requires '.' !in tail
    ensures Count('.', "." + tail) == 1
  {
    assert ("." + tail)[1..] == tail;
    CountAbsent('.', tail);
  }

  lemma OneDotBetween(front: string, back: string, rest: string)
    requires '.' !in front && '.' !in back && '.' !in rest
    ensures Count('.', front + ("." + back) + rest) == 1
  {
    CountAbsent('.', front);
    CountAbsent('.', rest);
    OneLeadingDot(back);
    CountConcat('.', front, "." + back);
    CountConcat('.', front + ("." + back), rest);
  }

  lemma PageUrlDots(user: string, model: string)
    requires '.' !in user && '.' !in model
    ensures Count('.', HuggingFaceUrl(user, model)) == 1
  {
    PageUrlPieces(user, model);
    assert HuggingFaceBaseUrl == "https://huggingface" + ("." + "co/spaces/");
    OneDotBetween("https://huggingface", "co/spaces/", user + ['/'] + model);
  }

  lemma PageUrlNoLocalhost(user: string, model: string)
    requires !Contains(user, "localhost") && !Contains(model, "localhost")
    ensures !Contains(HuggingFaceUrl(user, model), "localhost")
  {
    MissingCharNotContained("huggingface.co", "localhost", 'l');
    KeyNotInPageUrl(user, model, "localhost");
  }

  lemma PageUrlNoTunnel(user: string, model: string)
    requires '.' !in user && '.' !in model
    ensures !Contains(HuggingFaceUrl(user, model), "gradio.live")
  {
    MissingCharNotContained("huggingface.co", "gradio.live", 'r');
    MissingCharNotContained(user, "gradio.live", '.');
    MissingCharNotContained(model, "gradio.live", '.');
    KeyNotInPageUrl(user, model, "gradio.live");
  }

  lemma PageUrlNotLocal(user: string, model: string)
    requires PlainName(user) && PlainName(model)
    ensures !IsLocalAddress(HuggingFaceUrl(user, model))
  {
    PageUrlNoLocalhost(user, model);
    PageUrlNoTunnel(user, model);
    PageUrlDots(user, model);
    FewDotsNotLocal(HuggingFaceUrl(user, model));
  }

  /** What follows the base URL of a page URL. */
  lemma PageUrlPath(user: string, model: string)
    ensures Contains(HuggingFaceUrl(user, model), HuggingFaceBaseUrl)
    ensures FromFirstOccurrenceOf(HuggingFaceUrl(user, model), HuggingFaceBaseUrl) == user + ['/'] + model
  {
    var h := HuggingFaceUrl(user, model);
    PageUrlPieces(user, model);
    assert h[..|HuggingFaceBaseUrl|] == HuggingFaceBaseUrl;
    IndexOfIsFirst(h, HuggingFaceBaseUrl, 0);
  }

  /**
   * Rule 2 inverts HuggingFaceUrl: the page URL of a plain user and a hyphen-free model
   * parses back to them, with the model's underscores turned into hyphens.
   */
  lemma ParseHuggingFaceUrl(user: string, model: string, other: SpaceInfo)
    requires user != "" && model != "" && '-' !in model
    requires PlainName(user) && PlainName(model)
    ensures var named := Replace(model, '_', '-');
      ParseSpaceAddress(HuggingFaceUrl(user, model), other)
      == other.(userInput := HuggingFaceUrl(user, model), status := HuggingFace,
                gradio := GradioUrl(user, named), huggingface := HuggingFaceUrl(user, model),
                userName := user, modelName := named)
  {
    PageUrlNotLocal(user, model);
    PageUrlPath(user, model);
    SplitTwoPieces(user, '/', model);
    assert SplitAddress(HuggingFaceUrl(user, model)) == Parts(user, model, HuggingFace);
    ReplaceAbsent(model, '-', '_');
  }

  lemma UnderscoresAddNoLocalhost(name: string)
    requires !Contains(name, "localhost")
    ensures !Contains(Replace(name, '-', '_'), "localhost")
  {
    ReplaceAddsNoOccurrence(name, '-', '_', "localhost");
  }

  /** Reparsing the page URL of a successful parse names the same space again. */
  lemma HuggingFaceUrlRoundTrip(address: string, info: SpaceInfo, other: SpaceInfo)
    requires ParseSpaceAddress(address, info).status in {HuggingFace, Gradio}
    requires var r := ParseSpaceAddress(address, info); PlainName(r.userName) && PlainName(r.modelName)
    ensures var r := ParseSpaceAddress(address, info);
      var again := ParseSpaceAddress(r.huggingface, other);
      again.status == HuggingFace && again.userName == r.userName && again.modelName == r.modelName
      && again.gradio == r.gradio && again.huggingface == r.huggingface
  {
    var r := ParseSpaceAddress(address, info);
    SuccessShape(address, info);
    var model := Replace(r.modelName, '-', '_');
    ReplaceRemoves(r.modelName, '-', '_');
    UnderscoresAddNoLocalhost(r.modelName);
    ParseHuggingFaceUrl(r.userName, model, other);
    ReplaceThenBack(r.modelName, '-', '_');
    ReplaceAbsent(r.modelName, '_', '-');
  }
}
