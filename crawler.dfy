/**
 * `ZhihuCrawler`: the configuration merge, the login request, the
 * anti-forgery token, and the paging loop that walks the follower list of
 * one topic, constructs a `ZhihuUser` for each avatar link and saves the
 * valid ones as sorted-key records.
 */
module Crawler {
  import opened Wrappers
  import opened Text
  import opened Web
  import opened Retry
  import opened Common
  import opened User

  const BaseUrl := "https://www.zhihu.com"
  const StartUrl := "https://www.zhihu.com/topic/19551052/followers"

  /** The paging loop runs while the offset is below this. */
  const OffsetLimit := 100000

  // ---------------------------------------------------------------------
  // _load_config
  // ---------------------------------------------------------------------

  const DefaultConfig: map<string, JsonValue> :=
    map["account" := JStr(""), "password" := JStr(""), "Note" := JStr("account can be 'email' or 'phone number'")]

  /**
   * `_load_config`, given what `struct.update` merged from config.json: the
   * entries of a decoded object, or the leading pairs of a decoded array of
   * pairs up to the first element `dict.update` rejects; `None` when the file
   * is missing or its contents are not something `dict.update` accepts (the
   * struct is then written back to the file, which is not modelled). The
   * defaults are updated by the merged entries.
   */
  function LoadConfig(loaded: Option<map<string, JsonValue>>): map<string, JsonValue>
  {
    match loaded
    case None => DefaultConfig
    case Some(m) => DefaultConfig + m
  }

  /**
   * The merged configuration has the default keys and the loaded ones; a
   * loaded entry wins, and every other key keeps its default.
   */
  lemma LoadConfigSpec(loaded: Option<map<string, JsonValue>>)
    ensures LoadConfig(loaded).Keys == DefaultConfig.Keys + (if loaded.Some? then loaded.value.Keys else {})
    ensures "account" in LoadConfig(loaded) && "password" in LoadConfig(loaded)
    ensures loaded.Some? ==> forall k | k in loaded.value :: LoadConfig(loaded)[k] == loaded.value[k]
    ensures forall k | k in DefaultConfig && (loaded.None? || k !in loaded.value) ::
      LoadConfig(loaded)[k] == DefaultConfig[k]
  {
  }

  // ---------------------------------------------------------------------
  // login
  // ---------------------------------------------------------------------

  /** The login channel: "email" when the account contains '@', otherwise "phone_num". */
  function LoginChannel(account: string): (c: string)
    ensures c == "email" <==> '@' in account
    ensures c == "email" || c == "phone_num"
  {
    if '@' in account then "email" else "phone_num"
  }

  /** The `_xsrf` form value: the token, or JSON null before `init_xsrf` stored one. */
  function XsrfValue(xsrf: Option<string>): JsonValue
  {
    match xsrf
    case None => JNull
    case Some(s) => JStr(s)
  }

  /** The login form: three fixed fields, then the account under the channel name. */
  function LoginForm(account: string, password: JsonValue, xsrf: Option<string>): Form
  {
    map["remember_me" := JStr("true"), "password" := password, "_xsrf" := XsrfValue(xsrf)]
      [LoginChannel(account) := JStr(account)]
  }

  /** The login form has exactly four fields, and the account sits under its channel. */
  lemma LoginFormSpec(account: string, password: JsonValue, xsrf: Option<string>)
    ensures LoginForm(account, password, xsrf).Keys == {"remember_me", "password", "_xsrf", LoginChannel(account)}
    ensures |LoginForm(account, password, xsrf).Keys| == 4
    ensures LoginForm(account, password, xsrf)["remember_me"] == JStr("true")
    ensures LoginForm(account, password, xsrf)["password"] == password
    ensures LoginForm(account, password, xsrf)["_xsrf"] == XsrfValue(xsrf)
    ensures LoginForm(account, password, xsrf)[LoginChannel(account)] == JStr(account)
  {
    var c := LoginChannel(account);
    assert c != "remember_me" && c != "password" && c != "_xsrf" by {
      assert c[0] == 'e' || c[0] == 'p';
      assert c == "phone_num" ==> c[1] == 'h';
    }
    assert "remember_me" != "password" && "password" != "_xsrf" && "remember_me" != "_xsrf";
  }

  /** Python's `v == 0` for a decoded JSON scalar: true for 0, 0.0 and false. */
  function IsZero(v: JsonValue): bool
  {
    match v
    case JInt(i) => i == 0
    case JFloat(x) => x == 0.0
    case JBool(b) => !b
    case _ => false
  }

  /**
   * `login()` with the given configuration and stored token: the account
   * must be a string (its length is taken), an empty one only prints a
   * message, and the result is whether the response's "r" equals 0.
   */
  function LoginOutcome(t: Transport, config: map<string, JsonValue>, xsrf: Option<string>): Result<bool, Exception>
  {
    if "account" !in config then Failure(KeyError("account"))
    else if !config["account"].JStr? then Failure(TypeError)
    else
        var account := config["account"].s;
        if "password" !in config then Failure(KeyError("password"))
        else
          var url := BaseUrl + "/login/" + LoginChannel(account);
          match Posted(t, url, LoginForm(account, config["password"], xsrf))
          case Failure(e) => Failure(e)
          case Success(response) =>
            match response.r
            case Failure(e) => Failure(e)
            case Success(r) => Success(IsZero(r))
  }

  /**
   * Login raises before posting anything when the configuration lacks the
   * account, holds a non-string account (whose length cannot be taken), or
   * lacks the password; it returns a result only after a post that answers.
   */
  lemma LoginRaises(t: Transport, config: map<string, JsonValue>, xsrf: Option<string>)
    ensures "account" !in config ==> LoginOutcome(t, config, xsrf) == Failure(KeyError("account"))
    ensures "account" in config && !config["account"].JStr? ==> LoginOutcome(t, config, xsrf) == Failure(TypeError)
    ensures "account" in config && config["account"].JStr? && "password" !in config ==>
      LoginOutcome(t, config, xsrf) == Failure(KeyError("password"))
    ensures LoginOutcome(t, config, xsrf).Success? ==>
      && "account" in config && config["account"].JStr? && "password" in config
      && Posted(t, BaseUrl + "/login/" + LoginChannel(config["account"].s),
           LoginForm(config["account"].s, config["password"], xsrf)).Success?
  {
  }

  /**
   * With a string account and a password, login posts its form to the URL of
   * the account's channel, even when the account is empty, and succeeds iff
   * the post answers and its "r" is zero.
   */
  lemma LoginSpec(t: Transport, config: map<string, JsonValue>, xsrf: Option<string>)
    requires "account" in config && config["account"].JStr? && "password" in config
    ensures var account := config["account"].s;
      var posted := Posted(t, BaseUrl + "/login/" + LoginChannel(account), LoginForm(account, config["password"], xsrf));
      && (LoginOutcome(t, config, xsrf) == Success(true) <==>
            posted.Success? && posted.value.r.Success? && IsZero(posted.value.r.value))
      && (LoginOutcome(t, config, xsrf).Failure? <==> posted.Failure? || posted.value.r.Failure?)
      && (account == "" ==> LoginChannel(account) == "phone_num")
  {
  }

  // ---------------------------------------------------------------------
  // init_xsrf
  // ---------------------------------------------------------------------

  /** What the exception handler of `init_xsrf` raises: `ZhihuCrawler` has no `_debug_print`. */
  const MissingDebugPrint := AttributeError("_debug_print")

  /** The `value` of `input[name=_xsrf]` on the home page, or the exception reading it raises. */
  function XsrfOf(t: Transport): (r: Result<string, Exception>)
    ensures r.Success? <==>
      && Fetched(t, BaseUrl).Success?
      && Fetched(t, BaseUrl).value.xsrfInput.Some?
      && "value" in Fetched(t, BaseUrl).value.xsrfInput.value.attrs
    ensures r.Success? ==> r.value == Fetched(t, BaseUrl).value.xsrfInput.value.attrs["value"]
    ensures Fetched(t, BaseUrl).Success? && Fetched(t, BaseUrl).value.xsrfInput.None? ==> r == Failure(TypeError)
  {
    match Fetched(t, BaseUrl)
    case Failure(e) => Failure(e)
    case Success(doc) =>
      match doc.xsrfInput
      case None => Failure(TypeError)
      case Some(input) => Attr(input, "value")
  }

  /**
   * `init_xsrf` never fails quietly: either it stores the token, or the
   * handler itself raises `MissingDebugPrint` and nothing is stored.
   */
  function InitXsrfOutcome(t: Transport, stored: Option<string>): (r: (Option<string>, Outcome<Exception>))
    ensures r.1.Pass? <==> XsrfOf(t).Success?
    ensures r.1.Pass? ==> r.0 == Some(XsrfOf(t).value)
    ensures r.1.Fail? ==> r.0 == stored && r.1.error == MissingDebugPrint
  {
    match XsrfOf(t)
    case Success(token) => (Some(token), Pass)
    case Failure(_) => (stored, Fail(MissingDebugPrint))
  }

  // ---------------------------------------------------------------------
  // The paging cursor of do_crawler
  // ---------------------------------------------------------------------

  datatype Cursor = Cursor(offset: int, lastUserId: int)

  const FirstCursor := Cursor(40, 1458573819)

  /** The form that asks for the page after the cursor. */
  function PageForm(c: Cursor, xsrf: Option<string>): Form
  {
    map["offset" := JInt(c.offset), "start" := JInt(c.lastUserId), "_xsrf" := XsrfValue(xsrf)]
  }

  /**
   * The end of one pass: the offset grows by the number of person divs
   * before the last div's id is read; then `int(id[3:])` becomes the last
   * user id, unless reading it raises.
   */
  function Advance(c: Cursor, persons: seq<Tag>): (r: (Cursor, Option<Exception>))
    ensures r.0.offset == c.offset + |persons|
    ensures r.1.Some? ==> r.0.lastUserId == c.lastUserId
    ensures r.1.None? <==>
      && |persons| > 0
      && "id" in persons[|persons| - 1].attrs
      && ParseInt(SliceFrom(persons[|persons| - 1].attrs["id"], 3)).Some?
    ensures r.1.None? ==> Some(r.0.lastUserId) == ParseInt(SliceFrom(persons[|persons| - 1].attrs["id"], 3))
  {
    var n := |persons|;
    var moved := c.(offset := c.offset + n);
    if n == 0 then (moved, Some(IndexError))
    else match Attr(persons[n - 1], "id")
      case Failure(e) => (moved, Some(e))
      case Success(id) =>
        match ParseInt(SliceFrom(id, 3))
        case None => (moved, Some(ValueError(SliceFrom(id, 3))))
        case Some(v) => (moved.(lastUserId := v), None)
  }

  /**
   * The advance rule: when the last div's id is a three-character prefix
   * followed by the decimal form of `v`, the cursor becomes
   * (offset + N, v); with no divs the indexing raises IndexError.
   */
  lemma AdvanceRule(c: Cursor, persons: seq<Tag>, prefix: string, v: int)
    requires |persons| > 0 && |prefix| == 3
    requires "id" in persons[|persons| - 1].attrs && persons[|persons| - 1].attrs["id"] == prefix + IntToString(v)
    ensures Advance(c, persons) == (Cursor(c.offset + |persons|, v), None)
  {
    assert SliceFrom(prefix + IntToString(v), 3) == IntToString(v);
    ParseIntToString(v);
  }

  lemma AdvanceEmpty(c: Cursor)
    ensures Advance(c, []) == (c, Some(IndexError))
  {
  }

  // ---------------------------------------------------------------------
  // Saving users
  // ---------------------------------------------------------------------

  /** The keys of every record, in the code-point order `sort_keys` writes them. */
  const SortedRecordKeys: seq<string> :=
    ["agree_cnt", "education item", "education-extra item", "employment item", "gender", "img_url",
     "location item", "name", "position item", "thank_cnt", "url"]

  /** The sorted key list is strictly increasing in code-point order. */
  lemma SortedRecordKeysSorted()
    ensures StrictlySorted(SortedRecordKeys)
  {
    forall i | 0 <= i < |SortedRecordKeys| - 1
      ensures StrLess(SortedRecordKeys[i], SortedRecordKeys[i + 1])
    {
      SortedKeyPair(i);
    }
  }

  /** Each key is below the next: they differ at their first character, except the two education keys and the employment key. */
  lemma SortedKeyPair(i: nat)
    requires i < |SortedRecordKeys| - 1
    ensures StrLess(SortedRecordKeys[i], SortedRecordKeys[i + 1])
  {
    var a, b := SortedRecordKeys[i], SortedRecordKeys[i + 1];
    if i == 1 {
      StrLessAt(a, b, 9);
    } else if i == 2 {
      StrLessAt(a, b, 1);
    } else {
      StrLessAt(a, b, 0);
    }
  }

  /** The sorted key list holds exactly the keys of a record. */
  lemma SortedRecordKeysComplete()
    ensures (set k | k in SortedRecordKeys) == ProfileKeys + set k | k in ExtraInfoKeys
  {
  }

  /** One line of user.json: the record's entries in sorted key order (JSON escaping is not modelled). */
  type Line = seq<(string, JsonValue)>

  /** The entries of `m` under the keys `keys`, in the order of `keys`. */
  function EntriesIn(m: map<string, JsonValue>, keys: seq<string>): (line: Line)
    requires forall i | 0 <= i < |keys| :: keys[i] in m
    ensures |line| == |keys|
    ensures forall i | 0 <= i < |keys| :: line[i].0 == keys[i] && line[i].1 == m[keys[i]]
  {
    if keys == [] then []
    else EntriesIn(m, keys[..|keys| - 1]) + [(keys[|keys| - 1], m[keys[|keys| - 1]])]
  }

  /**
   * Listed under a strictly sorted list of exactly its keys, a map's entries
   * come out once each, in strictly increasing key order.
   */
  lemma EntriesInSorted(m: map<string, JsonValue>, keys: seq<string>)
    requires StrictlySorted(keys) && (set k | k in keys) == m.Keys
    ensures forall i | 0 <= i < |keys| :: keys[i] in m
    ensures (set i | 0 <= i < |EntriesIn(m, keys)| :: EntriesIn(m, keys)[i].0) == m.Keys
    ensures forall i, j | 0 <= i < j < |EntriesIn(m, keys)| :: StrLess(EntriesIn(m, keys)[i].0, EntriesIn(m, keys)[j].0)
    ensures forall i | 0 <= i < |EntriesIn(m, keys)| ::
      EntriesIn(m, keys)[i].0 in m && EntriesIn(m, keys)[i].1 == m[EntriesIn(m, keys)[i].0]
  {
    assert forall i | 0 <= i < |keys| :: keys[i] in m by {
      forall i | 0 <= i < |keys| ensures keys[i] in m {
        assert keys[i] in set k | k in keys;
      }
    }
    var line := EntriesIn(m, keys);
    forall i, j | 0 <= i < j < |line| ensures StrLess(line[i].0, line[j].0) {
      StrictlySortedDistinct(keys, i, j);
    }
    forall k | k in m ensures k in (set i | 0 <= i < |line| :: line[i].0) {
      assert k in set k | k in keys;
      var i :| 0 <= i < |keys| && keys[i] == k;
      assert line[i].0 == k;
    }
  }

  /** Every key of the sorted list is a key of the record. */
  lemma RecordHasSortedKeys(u: ZhihuUser)
    requires u.IsValid()
    ensures forall i | 0 <= i < |SortedRecordKeys| :: SortedRecordKeys[i] in RecordOf(u)
  {
    RecordOfKeys(u);
    SortedRecordKeysComplete();
    forall i | 0 <= i < |SortedRecordKeys| ensures SortedRecordKeys[i] in RecordOf(u) {
      assert SortedRecordKeys[i] in set k | k in SortedRecordKeys;
    }
  }

  /** `json.dumps(obj_to_dict(user), sort_keys=True)`, as its sequence of entries. */
  function RecordLine(u: ZhihuUser): Line
    requires u.IsValid()
  {
    RecordHasSortedKeys(u);
    EntriesIn(RecordOf(u), SortedRecordKeys)
  }

  /**
   * A saved line lists every key of the record once, in strictly increasing
   * order, each with the record's value.
   */
  lemma RecordLineSorted(u: ZhihuUser)
    requires u.IsValid()
    ensures (set i | 0 <= i < |RecordLine(u)| :: RecordLine(u)[i].0) == RecordOf(u).Keys
    ensures forall i, j | 0 <= i < j < |RecordLine(u)| :: StrLess(RecordLine(u)[i].0, RecordLine(u)[j].0)
    ensures forall i | 0 <= i < |RecordLine(u)| ::
      RecordLine(u)[i].0 in RecordOf(u) && RecordLine(u)[i].1 == RecordOf(u)[RecordLine(u)[i].0]
  {
    var m := RecordOf(u);
    SortedRecordKeysSorted();
    assert (set k | k in SortedRecordKeys) == m.Keys by {
      SortedRecordKeysComplete();
      RecordOfKeys(u);
    }
    EntriesInSorted(m, SortedRecordKeys);
    assert RecordLine(u) == EntriesIn(m, SortedRecordKeys);
  }

  /** `f` applied to each element of `xs`, in order. */
  function MapSeq<A, B>(f: A --> B, xs: seq<A>): (ys: seq<B>)
    requires forall i | 0 <= i < |xs| :: f.requires(xs[i])
    ensures |ys| == |xs| && forall i | 0 <= i < |xs| :: ys[i] == f(xs[i])
  {
    if xs == [] then [] else MapSeq(f, xs[..|xs| - 1]) + [f(xs[|xs| - 1])]
  }

  lemma MapSeqAppend<A, B>(f: A --> B, xs: seq<A>, ys: seq<A>)
    requires forall i | 0 <= i < |xs| :: f.requires(xs[i])
    requires forall i | 0 <= i < |ys| :: f.requires(ys[i])
    ensures forall i | 0 <= i < |xs + ys| :: f.requires((xs + ys)[i])
    ensures MapSeq(f, xs + ys) == MapSeq(f, xs) + MapSeq(f, ys)
  {
    var zs := xs + ys;
    forall i | 0 <= i < |zs| ensures f.requires(zs[i]) {
      if i < |xs| {
        assert zs[i] == xs[i];
      } else {
        assert zs[i] == ys[i - |xs|];
      }
    }
    var l, r := MapSeq(f, zs), MapSeq(f, xs) + MapSeq(f, ys);
    forall i | 0 <= i < |zs| ensures l[i] == r[i] {
      if i < |xs| {
        assert zs[i] == xs[i];
      } else {
        assert zs[i] == ys[i - |xs|];
      }
    }
    assert l == r;
  }

  /** The lines written for the users `users`, in order. */
  function Lines(users: seq<ZhihuUser>): seq<Line>
    requires forall i | 0 <= i < |users| :: users[i].IsValid()
  {
    MapSeq(RecordLine, users)
  }

  lemma LinesAppend(a: seq<ZhihuUser>, b: seq<ZhihuUser>)
    requires forall i | 0 <= i < |a| :: a[i].IsValid()
    requires forall i | 0 <= i < |b| :: b[i].IsValid()
    ensures Lines(a + b) == Lines(a) + Lines(b)
  {
    MapSeqAppend(RecordLine, a, b);
  }

  lemma AppendAssociative<T>(a: seq<T>, b: seq<T>, c: seq<T>)
    ensures (a + b) + c == a + (b + c)
  {
  }

  lemma LinesSnoc(users: seq<ZhihuUser>, u: ZhihuUser)
    requires forall i | 0 <= i < |users| :: users[i].IsValid()
    requires u.IsValid()
    ensures Lines(users + [u]) == Lines(users) + [RecordLine(u)]
  {
    assert (users + [u])[..|users|] == users;
  }

  /** The users saved from a page's avatar links, and the exception that stopped the loop, if any. */
  datatype Saved = Saved(users: seq<ZhihuUser>, error: Option<Exception>)

  /** The user the `href` of an avatar link leads to: `ZhihuUser(base_url + href)`. */
  function ProfileAt(t: Transport): string -> Result<ZhihuUser, Exception>
  {
    href => UserOf(t, BaseUrl + href)
  }

  /**
   * The inner loop of `do_crawler` over the avatar links, given the user
   * each `href` leads to: the user is constructed and saved if valid; a
   * missing `href` or an exception from the constructor ends the loop.
   */
  function SaveAll(profile: string -> Result<ZhihuUser, Exception>, avatars: seq<Tag>): (r: Saved)
    ensures forall i | 0 <= i < |r.users| :: r.users[i].IsValid()
    ensures |r.users| <= |avatars|
  {
    if avatars == [] then Saved([], None)
    else
      var prev := SaveAll(profile, avatars[..|avatars| - 1]);
      if prev.error.Some? then prev
      else match Visit(profile, avatars[|avatars| - 1])
        case Failure(e) => Saved(prev.users, Some(e))
        case Success(saved) => Saved(prev.users + saved, None)
  }

  /**
   * One iteration of that loop: the users it saves (the link's user when
   * valid, else none), or the exception it raises.
   */
  function Visit(profile: string -> Result<ZhihuUser, Exception>, avatar: Tag): (r: Result<seq<ZhihuUser>, Exception>)
    ensures r.Success? ==> |r.value| <= 1 && forall i | 0 <= i < |r.value| :: r.value[i].IsValid()
  {
    match Attr(avatar, "href")
    case Failure(e) => Failure(e)
    case Success(href) =>
      match profile(href)
      case Failure(e) => Failure(e)
      case Success(u) => Success(if u.IsValid() then [u] else [])
  }

  /** The user an avatar link leads to, when it has an `href` and construction does not raise. */
  predicate LinksTo(profile: string -> Result<ZhihuUser, Exception>, avatar: Tag, u: ZhihuUser)
  {
    "href" in avatar.attrs && profile(avatar.attrs["href"]) == Success(u)
  }

  /**
   * Only valid users are saved, each the user of one of the links; and when
   * the loop ends without an exception every link that leads to a valid
   * user has its user saved.
   */
  lemma {:induction false} SaveAllSpec(profile: string -> Result<ZhihuUser, Exception>, avatars: seq<Tag>)
    ensures forall j | 0 <= j < |SaveAll(profile, avatars).users| ::
      exists i | 0 <= i < |avatars| :: LinksTo(profile, avatars[i], SaveAll(profile, avatars).users[j])
    ensures SaveAll(profile, avatars).error.None? ==>
      forall i, u | 0 <= i < |avatars| && LinksTo(profile, avatars[i], u) && u.IsValid() :: u in SaveAll(profile, avatars).users
  {
    if avatars != [] {
      var init, last := avatars[..|avatars| - 1], avatars[|avatars| - 1];
      SaveAllSpec(profile, init);
      var prev, r := SaveAll(profile, init), SaveAll(profile, avatars);
      forall j | 0 <= j < |r.users|
        ensures exists i | 0 <= i < |avatars| :: LinksTo(profile, avatars[i], SaveAll(profile, avatars).users[j])
      {
        if j < |prev.users| {
          assert r.users[j] == prev.users[j];
          var i :| 0 <= i < |init| && LinksTo(profile, init[i], prev.users[j]);
          assert avatars[i] == init[i];
        } else {
          assert LinksTo(profile, last, r.users[j]);
          assert avatars[|avatars| - 1] == last;
        }
      }
      if r.error.None? {
        forall i, u | 0 <= i < |avatars| && LinksTo(profile, avatars[i], u) && u.IsValid() ensures u in r.users {
          if i < |init| {
            assert init[i] == avatars[i];
            assert u in prev.users;
          } else {
            assert profile(last.attrs["href"]) == Success(u);
            assert r.users == prev.users + [u];
          }
        }
      }
    } else {
      assert SaveAll(profile, avatars).users == [];
    }
  }

  /**
   * The users the links lead to, in link order: one entry per link that
   * has an `href`, whose construction does not raise, and whose user is
   * valid; a valid user linked twice appears twice.
   */
  function ValidLinked(profile: string -> Result<ZhihuUser, Exception>, avatars: seq<Tag>): seq<ZhihuUser>
  {
    if avatars == [] then []
    else
      var last := avatars[|avatars| - 1];
      ValidLinked(profile, avatars[..|avatars| - 1])
      + if "href" in last.attrs && profile(last.attrs["href"]).Success? && profile(last.attrs["href"]).value.IsValid()
        then [profile(last.attrs["href"]).value] else []
  }

  /** The loop saves in link order: without an exception it saves exactly `ValidLinked` of all links. */
  lemma {:induction false} SaveAllOrder(profile: string -> Result<ZhihuUser, Exception>, avatars: seq<Tag>)
    ensures SaveAll(profile, avatars).error.None? ==> SaveAll(profile, avatars).users == ValidLinked(profile, avatars)
  {
    if avatars != [] {
      SaveAllOrder(profile, avatars[..|avatars| - 1]);
    }
  }

  /**
   * The loop stopped at link `n` with result `r`: every link before `n` was
   * visited cleanly, link `n` raised the exception `r` carries, and `r`
   * holds the users of the links before `n`.
   */
  predicate StoppedAt(profile: string -> Result<ZhihuUser, Exception>, avatars: seq<Tag>, n: nat, r: Saved)
  {
    && n < |avatars|
    && (forall i | 0 <= i < n :: Visit(profile, avatars[i]).Success?)
    && Visit(profile, avatars[n]).Failure?
    && r.error == Some(Visit(profile, avatars[n]).error)
    && r.users == ValidLinked(profile, avatars[..n])
  }

  /** When the loop raises, it stopped at some link. */
  lemma {:induction false} SaveAllRaised(profile: string -> Result<ZhihuUser, Exception>, avatars: seq<Tag>)
    ensures SaveAll(profile, avatars).error.Some? ==>
      exists n: nat :: StoppedAt(profile, avatars, n, SaveAll(profile, avatars))
  {
    if avatars != [] {
      var init, last := avatars[..|avatars| - 1], avatars[|avatars| - 1];
      var prev, r := SaveAll(profile, init), SaveAll(profile, avatars);
      if prev.error.Some? {
        assert r == prev;
        SaveAllRaised(profile, init);
        var n: nat :| StoppedAt(profile, init, n, prev);
        StoppedAtExtends(profile, init, avatars, n, prev);
      } else if Visit(profile, last).Failure? {
        assert r == Saved(prev.users, Some(Visit(profile, last).error));
        SaveAllOrder(profile, init);
        SaveAllVisited(profile, init);
        assert avatars[..|init|] == init;
        assert forall i | 0 <= i < |init| :: init[i] == avatars[i];
        assert StoppedAt(profile, avatars, |init|, r);
      }
    }
  }

  /** Stopping at a link of `init` is stopping at it in any extension of `init`. */
  lemma StoppedAtExtends(profile: string -> Result<ZhihuUser, Exception>, init: seq<Tag>, avatars: seq<Tag>, n: nat, r: Saved)
    requires init <= avatars && StoppedAt(profile, init, n, r)
    ensures StoppedAt(profile, avatars, n, r)
  {
    assert init[..n] == avatars[..n];
    assert forall i | 0 <= i <= n :: init[i] == avatars[i];
  }

  /** A pass over links that raised nothing visited each link without an exception. */
  lemma {:induction false} SaveAllVisited(profile: string -> Result<ZhihuUser, Exception>, avatars: seq<Tag>)
    requires SaveAll(profile, avatars).error.None?
    ensures forall i | 0 <= i < |avatars| :: Visit(profile, avatars[i]).Success?
  {
    if avatars != [] {
      var init := avatars[..|avatars| - 1];
      SaveAllVisited(profile, init);
      assert forall i | 0 <= i < |init| :: init[i] == avatars[i];
    }
  }

  /** When the pass over `avatars[..n]` stops on its last link, the pass over all of them stops there too. */
  lemma {:induction false} SaveAllStops(profile: string -> Result<ZhihuUser, Exception>, avatars: seq<Tag>, n: nat)
    requires n <= |avatars| && SaveAll(profile, avatars[..n]).error.Some?
    ensures SaveAll(profile, avatars) == SaveAll(profile, avatars[..n])
    decreases |avatars| - n
  {
    if n < |avatars| {
      assert avatars[..|avatars| - 1][..n] == avatars[..n];
      SaveAllStops(profile, avatars[..|avatars| - 1], n);
    } else {
      assert avatars[..n] == avatars;
    }
  }

  // ---------------------------------------------------------------------
  // The whole crawl
  // ---------------------------------------------------------------------

  /** One pass of the paging loop: the users it saved, the cursor after it, and the exception it raised, if any. */
  datatype PassResult = PassResult(users: seq<ZhihuUser>, next: Cursor, error: Option<Exception>)

  /** The follower page after the cursor, or the exception that posting for it or reading it raises. */
  function ListingAfter(t: Transport, xsrf: Option<string>, c: Cursor): (r: Result<Listing, Exception>)
    ensures r.Success? <==>
      Posted(t, StartUrl, PageForm(c, xsrf)).Success? && Posted(t, StartUrl, PageForm(c, xsrf)).value.listing.Success?
    ensures r.Success? ==> r.value == Posted(t, StartUrl, PageForm(c, xsrf)).value.listing.value
    ensures Posted(t, StartUrl, PageForm(c, xsrf)).Failure? ==> r == Failure(NoActiveException)
  {
    match Posted(t, StartUrl, PageForm(c, xsrf))
    case Failure(e) => Failure(e)
    case Success(response) => response.listing
  }

  function Step(t: Transport, xsrf: Option<string>, c: Cursor): (p: PassResult)
    ensures p.error.None? ==> p.next.offset > c.offset
    ensures forall i | 0 <= i < |p.users| :: p.users[i].IsValid()
  {
    match ListingAfter(t, xsrf, c)
    case Failure(e) => PassResult([], c, Some(e))
    case Success(listing) =>
      var saved := SaveAll(ProfileAt(t), listing.avatars);
      if saved.error.Some? then PassResult(saved.users, c, saved.error)
      else
        var (next, error) := Advance(c, listing.persons);
        PassResult(saved.users, next, error)
  }

  /**
   * The cursor after a pass: once every avatar link of the page has been
   * visited, the offset moves by the number of follower divs, even when
   * reading the last div's id then raises; otherwise the cursor stays. The
   * last user id changes only in a pass that raises nothing.
   */
  lemma StepCursor(t: Transport, xsrf: Option<string>, c: Cursor)
    ensures var l := ListingAfter(t, xsrf, c);
      var visited := l.Success? && SaveAll(ProfileAt(t), l.value.avatars).error.None?;
      && Step(t, xsrf, c).next.offset == c.offset + (if visited then |l.value.persons| else 0)
      && (Step(t, xsrf, c).next.lastUserId != c.lastUserId ==> Step(t, xsrf, c).error.None?)
      && (!visited ==> Step(t, xsrf, c).next == c && Step(t, xsrf, c).error.Some?)
  {
  }

  datatype CrawlOutcome = CrawlOutcome(users: seq<ZhihuUser>, cursor: Cursor, error: Option<Exception>)

  /** `do_crawler` from the cursor `c`: passes until the offset reaches the limit or a pass raises. */
  function Crawl(t: Transport, xsrf: Option<string>, c: Cursor): (r: CrawlOutcome)
    ensures forall i | 0 <= i < |r.users| :: r.users[i].IsValid()
    decreases OffsetLimit - c.offset
  {
    if c.offset >= OffsetLimit then CrawlOutcome([], c, None)
    else
      var p := Step(t, xsrf, c);
      if p.error.Some? then CrawlOutcome(p.users, p.next, p.error)
      else
        var rest := Crawl(t, xsrf, p.next);
        CrawlOutcome(p.users + rest.users, rest.cursor, rest.error)
  }

  /** One pass from a cursor below the limit, then the crawl from where it leaves the cursor, unless it raised. */
  lemma CrawlUnfold(t: Transport, xsrf: Option<string>, c: Cursor)
    requires c.offset < OffsetLimit
    ensures var p := Step(t, xsrf, c);
      Crawl(t, xsrf, c) ==
        if p.error.Some? then CrawlOutcome(p.users, p.next, p.error)
        else CrawlOutcome(p.users + Crawl(t, xsrf, p.next).users, Crawl(t, xsrf, p.next).cursor, Crawl(t, xsrf, p.next).error)
  {
  }

  /**
   * The crawl ends: without an exception only once the offset has reached
   * the limit; the offset never moves backwards.
   */
  lemma {:induction false} CrawlEnds(t: Transport, xsrf: Option<string>, c: Cursor)
    ensures Crawl(t, xsrf, c).cursor.offset >= c.offset
    ensures Crawl(t, xsrf, c).error.None? ==> Crawl(t, xsrf, c).cursor.offset >= OffsetLimit
    decreases OffsetLimit - c.offset
  {
    if c.offset < OffsetLimit {
      var p := Step(t, xsrf, c);
      if p.error.None? {
        CrawlEnds(t, xsrf, p.next);
      } else {
        var listing := Posted(t, StartUrl, PageForm(c, xsrf));
        if listing.Success? && listing.value.listing.Success? {
          assert p.next.offset >= c.offset;
        }
      }
    }
  }

  /**
   * A page without follower divs ends the crawl: after its links are
   * visited, indexing the last div raises IndexError and the cursor stays.
   */
  lemma EmptyPageEndsCrawl(t: Transport, xsrf: Option<string>, c: Cursor, listing: Listing)
    requires c.offset < OffsetLimit
    requires ListingAfter(t, xsrf, c) == Success(listing) && listing.persons == []
    requires SaveAll(ProfileAt(t), listing.avatars).error.None?
    ensures Crawl(t, xsrf, c) == CrawlOutcome(SaveAll(ProfileAt(t), listing.avatars).users, c, Some(IndexError))
  {
    AdvanceEmpty(c);
  }

  /**
   * The cursor does not depend on which profiles turn out valid: two
   * transports that answer the listing requests alike lead a pass that
   * raises nothing to the same cursor.
   */
  lemma CursorIgnoresProfiles(t1: Transport, t2: Transport, xsrf: Option<string>, c: Cursor)
    requires t1.post == t2.post
    requires Step(t1, xsrf, c).error.None? && Step(t2, xsrf, c).error.None?
    ensures Step(t1, xsrf, c).next == Step(t2, xsrf, c).next
  {
    assert PostAnswers(t1, StartUrl, PageForm(c, xsrf)) == PostAnswers(t2, StartUrl, PageForm(c, xsrf));
  }

  // ---------------------------------------------------------------------
  // The crawler object
  // ---------------------------------------------------------------------

  class ZhihuCrawler {
    /** The shared request state (class attributes of `ZhihuCommon` in the program). */
    const common: ZhihuCommon
    var config: map<string, JsonValue>
    var offset: int
    var lastUserId: int
    /** The lines appended to user.json. */
    var written: seq<Line>

    ghost predicate Valid()
      reads this, common
    {
      common.Valid()
    }

    /**
     * `ZhihuCrawler()`, given the process's shared request state and what
     * reading config.json produced. Only the session is replaced, so the
     * failure flag and the token are whatever earlier requests left.
     */
    constructor (shared: ZhihuCommon, loaded: Option<map<string, JsonValue>>)
      requires shared.Valid()
      ensures Valid() && common == shared
      ensures Cursor(offset, lastUserId) == FirstCursor
      ensures config == LoadConfig(loaded) && written == []
    {
      common := shared;
      config := LoadConfig(loaded);
      offset := 40;
      lastUserId := 1458573819;
      written := [];
    }

    /** `init_xsrf()`. */
    method InitXsrf(t: Transport) returns (r: Outcome<Exception>)
      requires Valid()
      modifies common`lastGetPageFail, common`sleeps, common`history, common`xsrf
      ensures Valid()
      ensures (common.xsrf, r) == InitXsrfOutcome(t, old(common.xsrf))
      ensures common.history == old(common.history) + Run(old(common.lastGetPageFail), GetAnswers(t, BaseUrl)).events
    {
      var page := common.Get(t, BaseUrl);
      if page.Failure? {
        return Fail(MissingDebugPrint);
      }
      if page.value.xsrfInput.None? {
        return Fail(MissingDebugPrint);
      }
      var input := page.value.xsrfInput.value;
      if "value" !in input.attrs {
        return Fail(MissingDebugPrint);
      }
      common.SetXsrf(input.attrs["value"]);
      r := Pass;
    }

    /** `login()`. */
    method Login(t: Transport) returns (r: Result<bool, Exception>)
      requires Valid()
      modifies common`lastGetPageFail, common`sleeps, common`history
      ensures Valid()
      ensures r == LoginOutcome(t, config, common.xsrf)
    {
      if "account" !in config {
        return Failure(KeyError("account"));
      }
      if !config["account"].JStr? {
        return Failure(TypeError);
      }
      var account := config["account"].s;
      var channel := if '@' in account then "email" else "phone_num";
      var url := BaseUrl + "/login/" + channel;
      if "password" !in config {
        return Failure(KeyError("password"));
      }
      var form := map["remember_me" := JStr("true"), "password" := config["password"], "_xsrf" := XsrfValue(common.xsrf)];
      form := form[channel := JStr(account)];
      var response := common.Post(t, url, form);
      if response.Failure? {
        return Failure(response.error);
      }
      match response.value.r
      case Failure(e) => r := Failure(e);
      case Success(v) => r := Success(IsZero(v));
    }

    /** `_save_user(user)`: appends the user's record, keys sorted, as one line. */
    method SaveUser(u: ZhihuUser)
      requires u.IsValid()
      modifies this`written
      ensures written == old(written) + [RecordLine(u)]
    {
      var d := ObjToDict(u);
      RecordHasSortedKeys(u);
      written := written + [EntriesIn(d, SortedRecordKeys)];
    }

    /** The inner loop of `do_crawler` over one page's avatar links. */
    method SaveUsers(t: Transport, avatars: seq<Tag>) returns (error: Option<Exception>)
      requires Valid()
      modifies this`written, common`lastGetPageFail, common`sleeps, common`history
      ensures Valid()
      ensures error == SaveAll(ProfileAt(t), avatars).error
      ensures written == old(written) + Lines(SaveAll(ProfileAt(t), avatars).users)
    {
      for i := 0 to |avatars|
        invariant Valid()
        invariant SaveAll(ProfileAt(t), avatars[..i]).error.None?
        invariant written == old(written) + Lines(SaveAll(ProfileAt(t), avatars[..i]).users)
      {
        ghost var before := SaveAll(ProfileAt(t), avatars[..i]);
        assert avatars[..i + 1][..i] == avatars[..i];
        var saved := VisitLink(t, avatars[i]);
        if saved.Failure? {
          SaveAllStops(ProfileAt(t), avatars, i + 1);
          return Some(saved.error);
        }
        assert SaveAll(ProfileAt(t), avatars[..i + 1]) == Saved(before.users + saved.value, None);
        LinesAppend(before.users, saved.value);
        AppendAssociative(old(written), Lines(before.users), Lines(saved.value));
      }
      assert avatars[..|avatars|] == avatars;
      error := None;
    }

    /** The body of that loop for one avatar link. */
    method VisitLink(t: Transport, avatar: Tag) returns (r: Result<seq<ZhihuUser>, Exception>)
      requires Valid()
      modifies this`written, common`lastGetPageFail, common`sleeps, common`history
      ensures Valid()
      ensures r == Visit(ProfileAt(t), avatar)
      ensures written == old(written) + (if r.Success? then Lines(r.value) else [])
    {
      if "href" !in avatar.attrs {
        return Failure(KeyError("href"));
      }
      var author := NewUser(common, t, BaseUrl + avatar.attrs["href"]);
      assert author == ProfileAt(t)(avatar.attrs["href"]);
      if author.Failure? {
        return Failure(author.error);
      }
      if author.value.IsValid() {
        SaveUser(author.value);
        LinesSnoc([], author.value);
        return Success([author.value]);
      }
      r := Success([]);
    }

    /**
     * One pass of the loop of `do_crawler()`: post the cursor, save the
     * users of the page's avatar links, then move the cursor on.
     */
    method CrawlPage(t: Transport) returns (error: Option<Exception>)
      requires Valid()
      modifies this`offset, this`lastUserId, this`written, common`lastGetPageFail, common`sleeps, common`history
      ensures Valid()
      ensures var p := Step(t, common.xsrf, old(Cursor(offset, lastUserId)));
        && error == p.error
        && Cursor(offset, lastUserId) == p.next
        && written == old(written) + Lines(p.users)
    {
      var listing := FetchListing(t);
      if listing.Failure? {
        return Some(listing.error);
      }
      error := SaveUsers(t, listing.value.avatars);
      if error.Some? {
        return error;
      }
      error := MoveCursor(listing.value.persons);
    }

    /** The request of a pass: post the cursor and read the follower page from the answer. */
    method FetchListing(t: Transport) returns (r: Result<Listing, Exception>)
      requires Valid()
      modifies common`lastGetPageFail, common`sleeps, common`history
      ensures Valid()
      ensures r == ListingAfter(t, common.xsrf, Cursor(offset, lastUserId))
    {
      var response := common.Post(t, StartUrl, PageForm(Cursor(offset, lastUserId), common.xsrf));
      if response.Failure? {
        return Failure(response.error);
      }
      r := response.value.listing;
    }

    /** The end of a pass: the offset grows by the number of person divs, then the last div's id is read. */
    method MoveCursor(persons: seq<Tag>) returns (error: Option<Exception>)
      modifies this`offset, this`lastUserId
      ensures (Cursor(offset, lastUserId), error) == Advance(old(Cursor(offset, lastUserId)), persons)
    {
      var userNum := |persons|;
      offset := offset + userNum;
      if userNum == 0 {
        return Some(IndexError);
      }
      var id := Attr(persons[userNum - 1], "id");
      if id.Failure? {
        return Some(id.error);
      }
      var lastId := ParseInt(SliceFrom(id.value, 3));
      if lastId.None? {
        return Some(ValueError(SliceFrom(id.value, 3)));
      }
      lastUserId := lastId.value;
      error := None;
    }

    /** `do_crawler()`: pages through the follower list until the offset reaches the limit or a pass raises. */
    method DoCrawler(t: Transport) returns (error: Option<Exception>)
      requires Valid()
      modifies this`offset, this`lastUserId, this`written, common`lastGetPageFail, common`sleeps, common`history
      ensures Valid()
      ensures var r := Crawl(t, common.xsrf, old(Cursor(offset, lastUserId)));
        && error == r.error
        && Cursor(offset, lastUserId) == r.cursor
        && written == old(written) + Lines(r.users)
    {
      ghost var xsrf := common.xsrf;
      ghost var whole := Crawl(t, xsrf, Cursor(offset, lastUserId));
      while offset < OffsetLimit
        invariant Valid() && common.xsrf == xsrf
        invariant Crawl(t, xsrf, Cursor(offset, lastUserId)).error == whole.error
        invariant Crawl(t, xsrf, Cursor(offset, lastUserId)).cursor == whole.cursor
        invariant old(written) + Lines(whole.users) == written + Lines(Crawl(t, xsrf, Cursor(offset, lastUserId)).users)
        decreases OffsetLimit - offset
      {
        ghost var c := Cursor(offset, lastUserId);
        ghost var p := Step(t, xsrf, c);
        ghost var w := written;
        CrawlUnfold(t, xsrf, c);
        error := CrawlPage(t);
        if error.Some? {
          return error;
        }
        ghost var rest := Crawl(t, xsrf, p.next);
        LinesAppend(p.users, rest.users);
        AppendAssociative(w, Lines(p.users), Lines(rest.users));
      }
      error := None;
    }
  }
}
