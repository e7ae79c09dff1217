/**
 * `ZhihuUser`: one profile page, fetched through `ZhihuCommon.get` and read
 * through the lookups a `Document` records. A user is valid when the fetch
 * and every mandatory lookup and integer conversion succeed; only then is
 * the extra information read, and only valid users are ever serialised.
 */
module User {
  import opened Wrappers
  import opened Text
  import opened Web
  import opened Common

  // ---------------------------------------------------------------------
  // The debug filter
  // ---------------------------------------------------------------------

  datatype DebugLevel = Verbose | Warning | Error | End

  /** The numeric value of each member of the `DebugLevel` enumeration. */
  function LevelValue(l: DebugLevel): nat
  {
    match l
    case Verbose => 1
    case Warning => 2
    case Error => 3
    case End => 4
  }

  /**
   * `_debug_print(level, log_str)` with the object's threshold: the line it
   * prints, if any.
   */
  function DebugLine(level: DebugLevel, threshold: DebugLevel, log: string): (r: Option<string>)
    ensures r.Some? <==> LevelValue(level) >= LevelValue(threshold)
    ensures r.Some? ==> r.value == "[USER] " + log
  {
    if LevelValue(level) >= LevelValue(threshold) then Some("[USER] " + log) else None
  }

  /**
   * The filter is monotone: a message printed under some threshold is printed
   * under every lower one, and with the `verbose` threshold both classes use,
   * every message is printed.
   */
  lemma DebugFilterMonotone(level: DebugLevel, t: DebugLevel, lower: DebugLevel, log: string)
    requires LevelValue(lower) <= LevelValue(t)
    ensures DebugLine(level, t, log).Some? ==> DebugLine(level, lower, log).Some?
    ensures DebugLine(level, Verbose, log) == Some("[USER] " + log)
  {
  }

  // ---------------------------------------------------------------------
  // Gender
  // ---------------------------------------------------------------------

  const UnknownGender := "Unknown gender"

  /**
   * The gender named by the second class token of the gender icon, tested
   * with `find(...) > 0`: an occurrence at index 0 does not count.
   */
  function ClassifyToken(token: string): string
  {
    if Find(token, "female") > 0 then "Female"
    else if Find(token, "male") > 0 then "Male"
    else UnknownGender
  }

  /** `sub` occurs somewhere in `s` after the first character, and not at its start. */
  predicate OccursOnlyAfterStart(sub: string, s: string)
  {
    !OccursAt(sub, s, 0) && exists i: nat | 0 < i <= |s| :: OccursAt(sub, s, i)
  }

  lemma FindPositive(s: string, sub: string)
    ensures Find(s, sub) > 0 <==> OccursOnlyAfterStart(sub, s)
  {
    var r := Find(s, sub);
    if r > 0 {
      assert OccursAt(sub, s, r);
    }
  }

  /**
   * The classification in terms of occurrences: "Female" iff "female"
   * occurs, but not at the start; otherwise "Male" iff the same holds of
   * "male"; otherwise unknown.
   */
  lemma ClassifyTokenOccurrences(token: string)
    ensures ClassifyToken(token) == "Female" <==> OccursOnlyAfterStart("female", token)
    ensures ClassifyToken(token) == "Male" <==>
      !OccursOnlyAfterStart("female", token) && OccursOnlyAfterStart("male", token)
    ensures ClassifyToken(token) == UnknownGender <==>
      !OccursOnlyAfterStart("female", token) && !OccursOnlyAfterStart("male", token)
  {
    FindPositive(token, "female");
    FindPositive(token, "male");
  }

  /** Because a match at index 0 is ignored, a token that starts with "female" is classified "Male". */
  lemma ClassifyFemalePrefix(token: string)
    requires "female" <= token
    ensures ClassifyToken(token) == "Male"
  {
    assert OccursAt("female", token, 0);
    assert Find(token, "female") == 0;
    assert token[..6] == "female";
    assert token[0] == 'f' && token[1] == 'e' && token[2] == 'm' && token[3] == 'a' && token[4] == 'l' && token[5] == 'e';
    assert token[2..][..4] == "male";
    assert OccursAt("male", token, 2);
    assert !OccursAt("male", token, 0) by {
      assert token[0..][0] == 'f';
    }
    assert !OccursAt("male", token, 1) by {
      assert token[1..][0] == 'e';
    }
  }

  // ---------------------------------------------------------------------
  // The mandatory fields of a profile page
  // ---------------------------------------------------------------------

  /** `name_tag.contents[0]`, which the success message then concatenates to a `str`. */
  function NameOf(nameTag: Option<Tag>): (r: Result<string, Exception>)
    ensures r.Success? <==> nameTag.Some? && |nameTag.value.contents| > 0 && nameTag.value.contents[0].Text?
    ensures r.Success? ==> r.value == nameTag.value.contents[0].text
  {
    match nameTag
    case None => Failure(AttributeError("contents"))
    case Some(tag) =>
      if |tag.contents| == 0 then Failure(IndexError)
      else match tag.contents[0]
        case Element(_) => Failure(TypeError)
        case Text(s) => Success(s)
  }

  /** `int(tag.contents[1].contents[0])`: the agree or thanks count. */
  function CountOf(countTag: Option<Tag>): (r: Result<int, Exception>)
    ensures r.Success? <==>
      && countTag.Some?
      && |countTag.value.contents| > 1
      && countTag.value.contents[1].Element?
      && |countTag.value.contents[1].tag.contents| > 0
      && countTag.value.contents[1].tag.contents[0].Text?
      && ParseInt(countTag.value.contents[1].tag.contents[0].text).Some?
    ensures r.Success? ==> Some(r.value) == ParseInt(countTag.value.contents[1].tag.contents[0].text)
  {
    match countTag
    case None => Failure(AttributeError("contents"))
    case Some(tag) =>
      if |tag.contents| < 2 then Failure(IndexError)
      else match tag.contents[1]
        case Text(_) => Failure(AttributeError("contents"))
        case Element(inner) =>
          if |inner.contents| == 0 then Failure(IndexError)
          else match inner.contents[0]
            case Element(_) => Failure(TypeError)
            case Text(s) =>
              match ParseInt(s)
              case None => Failure(ValueError(s))
              case Some(v) => Success(v)
  }

  /** The gender: unknown without a gender span, else classified from `contents[0]["class"][1]`. */
  function GenderOf(genderTag: Option<Tag>): (r: Result<string, Exception>)
    ensures genderTag.None? ==> r == Success(UnknownGender)
    ensures genderTag.Some? ==> (r.Success? <==>
      && |genderTag.value.contents| > 0
      && genderTag.value.contents[0].Element?
      && genderTag.value.contents[0].tag.classes.Some?
      && |genderTag.value.contents[0].tag.classes.value| > 1)
    ensures genderTag.Some? && r.Success? ==>
      r.value == ClassifyToken(genderTag.value.contents[0].tag.classes.value[1])
    ensures r.Success? ==> r.value in {"Female", "Male", UnknownGender}
  {
    match genderTag
    case None => Success(UnknownGender)
    case Some(tag) =>
      if |tag.contents| == 0 then Failure(IndexError)
      else match tag.contents[0]
        case Text(_) => Failure(TypeError)
        case Element(icon) =>
          match icon.classes
          case None => Failure(KeyError("class"))
          case Some(tokens) =>
            if |tokens| < 2 then Failure(IndexError) else Success(ClassifyToken(tokens[1]))
  }

  /** `img_url.attrs["src"]` of the large avatar. */
  function AvatarOf(avatar: Option<Tag>): (r: Result<string, Exception>)
    ensures r.Success? <==> avatar.Some? && "src" in avatar.value.attrs
    ensures r.Success? ==> r.value == avatar.value.attrs["src"]
  {
    match avatar
    case None => Failure(AttributeError("attrs"))
    case Some(tag) => Attr(tag, "src")
  }

  /** What `_parse_user_page` stores on success. */
  datatype Fields = Fields(name: string, thankCnt: int, agreeCnt: int, gender: string, imgUrl: string)

  /**
   * `_parse_user_page` after a successful fetch: the fields, or `None` when
   * any lookup or conversion raises (the exception is caught and only
   * printed).
   */
  function ParsePage(doc: Document): Option<Fields>
  {
    match doc.header
    case None => None
    case Some(h) =>
      match (NameOf(h.name), CountOf(h.agree), CountOf(h.thanks), GenderOf(h.gender), AvatarOf(doc.avatar))
      case (Success(name), Success(agree), Success(thank), Success(gender), Success(img)) =>
        Some(Fields(name, thank, agree, gender, img))
      case _ => None
  }

  /** Validity is all or nothing: a page parses iff every mandatory lookup succeeds, and then yields their values. */
  lemma ParsePageAllOrNothing(doc: Document)
    ensures ParsePage(doc).Some? <==>
      && doc.header.Some?
      && NameOf(doc.header.value.name).Success?
      && CountOf(doc.header.value.agree).Success?
      && CountOf(doc.header.value.thanks).Success?
      && GenderOf(doc.header.value.gender).Success?
      && AvatarOf(doc.avatar).Success?
    ensures ParsePage(doc).Some? ==>
      var h := doc.header.value;
      ParsePage(doc).value == Fields(NameOf(h.name).value, CountOf(h.thanks).value,
        CountOf(h.agree).value, GenderOf(h.gender).value, AvatarOf(doc.avatar).value)
  {
  }

  // ---------------------------------------------------------------------
  // Extra information
  // ---------------------------------------------------------------------

  /** `_extra_info_key`, in order. */
  const ExtraInfoKeys: seq<string> :=
    ["education item", "education-extra item", "employment item", "location item", "position item"]

  /**
   * The extra information read for the keys `keys` in order: the `title`
   * of each span found; a found span without a `title` raises KeyError.
   */
  function ExtraInfoOver(spans: map<string, Tag>, keys: seq<string>): Result<map<string, string>, Exception>
  {
    if keys == [] then Success(map[])
    else
      var key := keys[|keys| - 1];
      match ExtraInfoOver(spans, keys[..|keys| - 1])
      case Failure(e) => Failure(e)
      case Success(info) =>
        if key !in spans then Success(info)
        else if "title" in spans[key].attrs then Success(info[key := spans[key].attrs["title"]])
        else Failure(KeyError("title"))
  }

  /** A key of `keys` whose span is found but carries no `title`. */
  predicate MissingTitle(spans: map<string, Tag>, keys: seq<string>)
  {
    exists i | 0 <= i < |keys| :: keys[i] in spans && "title" !in spans[keys[i]].attrs
  }

  /**
   * The extra information fails iff some span found for a key lacks its
   * `title`; otherwise a key is present iff it is one of the keys and its
   * span was found, and it maps to that span's title.
   */
  lemma {:induction false} ExtraInfoSpec(spans: map<string, Tag>, keys: seq<string>)
    ensures ExtraInfoOver(spans, keys).Failure? <==> MissingTitle(spans, keys)
    ensures ExtraInfoOver(spans, keys).Failure? ==> ExtraInfoOver(spans, keys).error == KeyError("title")
    ensures ExtraInfoOver(spans, keys).Success? ==>
      forall k :: k in ExtraInfoOver(spans, keys).value <==> k in keys && k in spans
    ensures ExtraInfoOver(spans, keys).Success? ==>
      forall k | k in ExtraInfoOver(spans, keys).value :: ExtraInfoOver(spans, keys).value[k] == spans[k].attrs["title"]
  {
    if keys != [] {
      var init := keys[..|keys| - 1];
      ExtraInfoSpec(spans, init);
      assert forall k :: k in keys <==> k in init || k == keys[|keys| - 1];
      if MissingTitle(spans, init) {
        var i :| 0 <= i < |init| && init[i] in spans && "title" !in spans[init[i]].attrs;
        assert keys[i] == init[i];
      }
      if MissingTitle(spans, keys) {
        var i :| 0 <= i < |keys| && keys[i] in spans && "title" !in spans[keys[i]].attrs;
        if i < |init| {
          assert init[i] == keys[i];
        }
      }
    }
  }

  /** `parse_extra_info`: fills the extra-information dictionary key by key. */
  method ParseExtraInfo(doc: Document) returns (r: Result<map<string, string>, Exception>)
    ensures r == ExtraInfoOver(doc.spans, ExtraInfoKeys)
  {
    var info: map<string, string> := map[];
    for i := 0 to |ExtraInfoKeys|
      invariant ExtraInfoOver(doc.spans, ExtraInfoKeys[..i]) == Success(info)
    {
      var key := ExtraInfoKeys[i];
      assert ExtraInfoKeys[..i + 1][..i] == ExtraInfoKeys[..i];
      if key in doc.spans {
        var tag := doc.spans[key];
        if "title" !in tag.attrs {
          ExtraInfoSpec(doc.spans, ExtraInfoKeys);
          assert MissingTitle(doc.spans, ExtraInfoKeys) by {
            assert ExtraInfoKeys[i] in doc.spans && "title" !in doc.spans[ExtraInfoKeys[i]].attrs;
          }
          return Failure(KeyError("title"));
        }
        info := info[key := tag.attrs["title"]];
      }
    }
    assert ExtraInfoKeys[..|ExtraInfoKeys|] == ExtraInfoKeys;
    r := Success(info);
  }

  // ---------------------------------------------------------------------
  // A constructed user
  // ---------------------------------------------------------------------

  /**
   * A `ZhihuUser` object: its URL, its fields when valid, and its extra
   * information (empty for an invalid user, which never reads it).
   */
  datatype ZhihuUser = ZhihuUser(url: string, fields: Option<Fields>, extraInfo: map<string, string>)
  {
    predicate IsValid() { fields.Some? }
  }

  /**
   * `ZhihuUser(url)`: an invalid user when the fetch or the page parse
   * fails; for a valid user the extra information is read outside any
   * `try`, so a missing `title` escapes the constructor.
   */
  function UserOf(t: Transport, url: string): Result<ZhihuUser, Exception>
  {
    match Fetched(t, url)
    case Failure(_) => Success(ZhihuUser(url, None, map[]))
    case Success(doc) =>
      match ParsePage(doc)
      case None => Success(ZhihuUser(url, None, map[]))
      case Some(f) =>
        match ExtraInfoOver(doc.spans, ExtraInfoKeys)
        case Failure(e) => Failure(e)
        case Success(info) => Success(ZhihuUser(url, Some(f), info))
  }

  /**
   * What a constructed user is: valid iff the fetch and the page parse
   * succeed; its extra keys are among the five; construction raises only
   * the KeyError of a missing `title`, and only for a page that parsed.
   */
  lemma UserOfSpec(t: Transport, url: string)
    ensures UserOf(t, url).Success? ==> UserOf(t, url).value.url == url
    ensures UserOf(t, url).Success? ==>
      (UserOf(t, url).value.IsValid() <==> Fetched(t, url).Success? && ParsePage(Fetched(t, url).value).Some?)
    ensures UserOf(t, url).Success? && UserOf(t, url).value.IsValid() ==>
      forall k | k in UserOf(t, url).value.extraInfo :: k in ExtraInfoKeys
    ensures UserOf(t, url).Failure? ==>
      && UserOf(t, url).error == KeyError("title")
      && Fetched(t, url).Success?
      && ParsePage(Fetched(t, url).value).Some?
  {
    if Fetched(t, url).Success? {
      ExtraInfoSpec(Fetched(t, url).value.spans, ExtraInfoKeys);
    }
  }

  /** The constructor: fetch through the shared state, parse, then read the extra information. */
  method NewUser(common: ZhihuCommon, t: Transport, url: string) returns (r: Result<ZhihuUser, Exception>)
    requires common.Valid()
    modifies common`lastGetPageFail, common`sleeps, common`history
    ensures common.Valid()
    ensures r == UserOf(t, url)
  {
    var page := common.Get(t, url);
    if page.Failure? {
      return Success(ZhihuUser(url, None, map[]));
    }
    var fields := ParsePage(page.value);
    if fields.None? {
      return Success(ZhihuUser(url, None, map[]));
    }
    var info := ParseExtraInfo(page.value);
    if info.Failure? {
      return Failure(info.error);
    }
    r := Success(ZhihuUser(url, fields, info.value));
  }

  // ---------------------------------------------------------------------
  // obj_to_dict
  // ---------------------------------------------------------------------

  /** The text stored for an extra key: its value, or "" when absent. */
  function ExtraOrEmpty(info: map<string, string>, key: string): string
  {
    if key in info then info[key] else ""
  }

  /** The entries `obj_to_dict` makes for the keys `keys`: each key's value, or "". */
  function ExtraRecord(info: map<string, string>, keys: seq<string>): map<string, JsonValue>
  {
    if keys == [] then map[]
    else ExtraRecord(info, keys[..|keys| - 1])[keys[|keys| - 1] := JStr(ExtraOrEmpty(info, keys[|keys| - 1]))]
  }

  /** The entries are exactly the keys `keys`, each mapped to its value or "". */
  lemma {:induction false} ExtraRecordSpec(info: map<string, string>, keys: seq<string>)
    ensures ExtraRecord(info, keys).Keys == set k | k in keys
    ensures forall k | k in keys :: ExtraRecord(info, keys)[k] == JStr(if k in info then info[k] else "")
  {
    if keys != [] {
      ExtraRecordSpec(info, keys[..|keys| - 1]);
      assert forall k :: k in keys <==> k in keys[..|keys| - 1] || k == keys[|keys| - 1];
    }
  }

  /** `obj_to_dict` of a valid user. */
  function RecordOf(u: ZhihuUser): map<string, JsonValue>
    requires u.IsValid()
  {
    var f := u.fields.value;
    map["name" := JStr(f.name), "url" := JStr(u.url), "thank_cnt" := JInt(f.thankCnt),
        "agree_cnt" := JInt(f.agreeCnt), "gender" := JStr(f.gender), "img_url" := JStr(f.imgUrl)]
    + ExtraRecord(u.extraInfo, ExtraInfoKeys)
  }

  /** The six profile keys of every record. */
  const ProfileKeys: set<string> := {"name", "url", "thank_cnt", "agree_cnt", "gender", "img_url"}

  /**
   * Every record has exactly the six profile keys and the five extra keys,
   * and each extra key holds its value, or "" when the user has none.
   */
  lemma RecordOfKeys(u: ZhihuUser)
    requires u.IsValid()
    ensures RecordOf(u).Keys == ProfileKeys + set k | k in ExtraInfoKeys
    ensures forall k | k in ExtraInfoKeys :: RecordOf(u)[k] == JStr(if k in u.extraInfo then u.extraInfo[k] else "")
  {
    ExtraRecordSpec(u.extraInfo, ExtraInfoKeys);
  }

  /** The six profile keys carry the user's URL and parsed fields. */
  lemma RecordOfProfile(u: ZhihuUser)
    requires u.IsValid()
    ensures RecordOf(u)["name"] == JStr(u.fields.value.name) && RecordOf(u)["url"] == JStr(u.url)
    ensures RecordOf(u)["thank_cnt"] == JInt(u.fields.value.thankCnt)
    ensures RecordOf(u)["agree_cnt"] == JInt(u.fields.value.agreeCnt)
    ensures RecordOf(u)["gender"] == JStr(u.fields.value.gender)
    ensures RecordOf(u)["img_url"] == JStr(u.fields.value.imgUrl)
  {
    NoKeyClash();
    ExtraRecordSpec(u.extraInfo, ExtraInfoKeys);
  }

  /** No extra key is one of the profile keys. */
  lemma NoKeyClash()
    ensures forall k | k in ExtraInfoKeys :: k !in ProfileKeys
  {
    forall i | 0 <= i < |ExtraInfoKeys| ensures ExtraInfoKeys[i] !in ProfileKeys {
      assert |ExtraInfoKeys[i]| >= 13;
    }
  }

  /** The loop of `obj_to_dict` over the keys `keys`: sets each key to its value, or "". */
  method FillExtras(d0: map<string, JsonValue>, info: map<string, string>, keys: seq<string>)
    returns (d: map<string, JsonValue>)
    ensures d == d0 + ExtraRecord(info, keys)
  {
    d := d0;
    for i := 0 to |keys|
      invariant d == d0 + ExtraRecord(info, keys[..i])
    {
      var key := keys[i];
      assert keys[..i + 1][..i] == keys[..i];
      if key in info {
        d := d[key := JStr(info[key])];
      } else {
        d := d[key := JStr("")];
      }
    }
    assert keys[..|keys|] == keys;
  }

  /** `ZhihuUser.obj_to_dict(obj)`: the six profile keys, then each extra key in turn. */
  method ObjToDict(u: ZhihuUser) returns (d: map<string, JsonValue>)
    requires u.IsValid()
    ensures d == RecordOf(u)
  {
    var f := u.fields.value;
    d := map[];
    d := d["name" := JStr(f.name)];
    d := d["url" := JStr(u.url)];
    d := d["thank_cnt" := JInt(f.thankCnt)];
    d := d["agree_cnt" := JInt(f.agreeCnt)];
    d := d["gender" := JStr(f.gender)];
    d := d["img_url" := JStr(f.imgUrl)];
    d := FillExtras(d, u.extraInfo, ExtraInfoKeys);
  }

  // ---------------------------------------------------------------------
  // __str__
  // ---------------------------------------------------------------------

  /** The fixed part of `__str__`: name, counts and gender. */
  function Headline(f: Fields): string
  {
    "User " + f.name + " agree: " + IntToString(f.agreeCnt) + ", thank: " + IntToString(f.thankCnt)
    + " " + f.gender + " "
  }

  /** The piece `__str__` appends for an extra key: nothing when the key is absent. */
  function Segment(info: map<string, string>, key: string): string
  {
    if key in info then " " + key + ": " + info[key] else ""
  }

  /** The pieces for the keys `keys`, in order. */
  function ExtraText(info: map<string, string>, keys: seq<string>): string
  {
    if keys == [] then "" else ExtraText(info, keys[..|keys| - 1]) + Segment(info, keys[|keys| - 1])
  }

  /** The string of a valid user. */
  function Describe(u: ZhihuUser): string
    requires u.IsValid()
  {
    Headline(u.fields.value) + ExtraText(u.extraInfo, ExtraInfoKeys)
  }

  /** `a` occurs in `b`. */
  predicate Substring(a: string, b: string)
  {
    exists j | 0 <= j <= |b| :: a <= b[j..]
  }

  lemma SubstringOfPrefix(a: string, b: string, c: string)
    requires Substring(a, b)
    ensures Substring(a, b + c)
  {
    var j :| 0 <= j <= |b| && a <= b[j..];
    assert b[j..] <= (b + c)[j..];
  }

  lemma SubstringOfSuffix(a: string, b: string)
    ensures Substring(a, b + a)
  {
    assert (b + a)[|b|..] == a;
  }

  /** The extra part is empty iff none of the keys is present. */
  lemma {:induction false} ExtraTextEmpty(info: map<string, string>, keys: seq<string>)
    ensures ExtraText(info, keys) == "" <==> forall k | k in keys :: k !in info
  {
    if keys != [] {
      var init, last := keys[..|keys| - 1], keys[|keys| - 1];
      ExtraTextEmpty(info, init);
      assert forall k :: k in keys <==> k in init || k == last;
    }
  }

  /** Each present key contributes its piece: " ", the key, ": " and its value. */
  lemma {:induction false} ExtraTextSegments(info: map<string, string>, keys: seq<string>)
    ensures forall i | 0 <= i < |keys| && keys[i] in info :: Substring(Segment(info, keys[i]), ExtraText(info, keys))
  {
    if keys != [] {
      var init, last := keys[..|keys| - 1], keys[|keys| - 1];
      ExtraTextSegments(info, init);
      var prev, whole := ExtraText(info, init), ExtraText(info, keys);
      assert whole == prev + Segment(info, last);
      forall i | 0 <= i < |keys| && keys[i] in info
        ensures Substring(Segment(info, keys[i]), whole)
      {
        if i < |init| {
          assert init[i] == keys[i];
          assert Substring(Segment(info, init[i]), prev);
          SubstringOfPrefix(Segment(info, keys[i]), prev, Segment(info, last));
        } else {
          assert keys[i] == last;
          SubstringOfSuffix(Segment(info, last), prev);
        }
      }
    }
  }

  /** A user with no extra information prints as its headline alone, and its name can be read back after "User ". */
  lemma DescribeHeadline(u: ZhihuUser)
    requires u.IsValid()
    ensures (forall k | k in ExtraInfoKeys :: k !in u.extraInfo) ==> Describe(u) == Headline(u.fields.value)
    ensures ("User " + u.fields.value.name) <= Describe(u)
  {
    ExtraTextEmpty(u.extraInfo, ExtraInfoKeys);
  }

  /** The loop of `__str__` over the keys `keys`: appends each present key's piece. */
  method AppendExtras(s0: string, info: map<string, string>, keys: seq<string>) returns (s: string)
    ensures s == s0 + ExtraText(info, keys)
  {
    s := s0;
    for i := 0 to |keys|
      invariant s == s0 + ExtraText(info, keys[..i])
    {
      var key := keys[i];
      assert keys[..i + 1][..i] == keys[..i];
      if key in info {
        s := s + " " + key + ": " + info[key];
      }
    }
    assert keys[..|keys|] == keys;
  }

  /** `ZhihuUser.__str__`: the headline, then the piece of each present extra key in order. */
  method Str(u: ZhihuUser) returns (s: string)
    requires u.IsValid()
    ensures s == Describe(u)
  {
    s := Headline(u.fields.value);
    s := AppendExtras(s, u.extraInfo, ExtraInfoKeys);
  }
}
