/** The markdown report (`markdown_one_user`, `markdown_multiple_users`):
    one block per record listing the chosen attributes, the expanded URLs,
    a link to the account and an image tag for the locally cached profile
    picture, which is downloaded first when it is not cached yet. */
module Markdown {
  import opened Results
  import opened Profiles
  import Text
  import Paths

  /** The local picture files that exist: `os.path.exists(path)`. */
  type Images = set<string>

  /** The width of `{k: <17}`. */
  const KeyWidth: nat := 17

  /** The first line of every block. */
  const Rule: string := "* * *\n"

  const AccountUrlPrefix: string := "https://twitter.com/"

  /** The width the key takes once padded: it is never truncated. */
  function PaddedWidth(k: string): nat {
    if |k| >= KeyWidth then |k| else KeyWidth
  }

  /** `f"- {k: <17} : {v}\n"`. */
  function FieldLine(k: string, v: string): string {
    "- " + Text.PadRight(k, KeyWidth) + " : " + v + "\n"
  }

  /** A field line shows the key, padded with spaces to 17 columns and never
      truncated, then ` : `, the value and a line break. */
  lemma FieldLineLayout(k: string, v: string)
    ensures var line := FieldLine(k, v);
      && |line| == 2 + PaddedWidth(k) + 3 + |v| + 1
      && line[..2] == "- "
      && line[2..2 + |k|] == k
      && (forall i :: 2 + |k| <= i < 2 + PaddedWidth(k) ==> line[i] == ' ')
      && line[2 + PaddedWidth(k)..5 + PaddedWidth(k)] == " : "
      && line[5 + PaddedWidth(k)..|line| - 1] == v
      && line[|line| - 1] == '\n'
  {
    var key := Text.PadRight(k, KeyWidth);
    var line := FieldLine(k, v);
    assert line == "- " + key + " : " + v + "\n";
    assert line[2..2 + |key|] == key;
    assert line[2..2 + |k|] == key[..|k|];
    assert forall i :: 2 + |k| <= i < 2 + |key| ==> line[i] == key[i - 2];
    assert line[2 + |key|..5 + |key|] == " : ";
    assert line[5 + |key|..|line| - 1] == v;
  }

  /** A field line determines its value: two lines for the same key differ
      whenever their values do. */
  lemma FieldLineInjective(k: string, v: string, w: string)
    requires FieldLine(k, v) == FieldLine(k, w)
    ensures v == w
  {
    FieldLineLayout(k, v);
    FieldLineLayout(k, w);
  }

  /** Every key of `keys` is an attribute of `r`: `user_info[k]` does not raise. */
  predicate HasKeys(r: Record, keys: seq<string>) {
    forall i :: 0 <= i < |keys| ==> Attribute(r, keys[i]).Some?
  }

  /** `error` is the `KeyError` the loop over `keys` raises first: the first
      key that is not an attribute of `r`. */
  predicate FirstMissing(r: Record, keys: seq<string>, error: Error) {
    exists i :: 0 <= i < |keys| && error == KeyError(keys[i]) && Attribute(r, keys[i]).None? && HasKeys(r, keys[..i])
  }

  /** The attribute lines of a block, in the order of `keys`; the first key
      that is not an attribute raises `KeyError`. */
  function KeyLines(r: Record, keys: seq<string>): (res: Result<string>)
    ensures res.Ok? <==> HasKeys(r, keys)
    ensures res.Err? ==> FirstMissing(r, keys, res.error)
    decreases |keys|
  {
    if |keys| == 0 then Ok("")
    else
      HasKeysCons(r, keys);
      match Attribute(r, keys[0])
      case None =>
        assert keys[..0] == [];
        Err(KeyError(keys[0]))
      case Some(v) =>
        match KeyLines(r, keys[1..])
        case Err(e) =>
          FirstMissingCons(r, keys, e);
          Err(e)
        case Ok(rest) => Ok(FieldLine(keys[0], v) + rest)
  }

  /** The keys are all attributes exactly when the first one and the rest are. */
  lemma HasKeysCons(r: Record, keys: seq<string>)
    requires |keys| > 0
    ensures HasKeys(r, keys) <==> Attribute(r, keys[0]).Some? && HasKeys(r, keys[1..])
  {
    assert forall i :: 0 < i < |keys| ==> keys[i] == keys[1..][i - 1];
  }

  /** A first missing key after a present first key is the first missing
      key of the whole list. */
  lemma FirstMissingCons(r: Record, keys: seq<string>, e: Error)
    requires |keys| > 0 && Attribute(r, keys[0]).Some?
    requires FirstMissing(r, keys[1..], e)
    ensures FirstMissing(r, keys, e)
  {
    var i :| 0 <= i < |keys[1..]| && e == KeyError(keys[1..][i]) && Attribute(r, keys[1..][i]).None? && HasKeys(r, keys[1..][..i]);
    assert keys[..i + 1] == [keys[0]] + keys[1..][..i];
    HasKeysCons(r, keys[..i + 1]);
    assert keys[..i + 1][1..] == keys[1..][..i];
  }

  /** The attribute lines show every key with its value. */
  lemma {:induction false} KeyLinesShow(r: Record, keys: seq<string>)
    requires HasKeys(r, keys)
    ensures forall i :: 0 <= i < |keys| ==>
      Text.Contains(KeyLines(r, keys).value, FieldLine(keys[i], Attribute(r, keys[i]).value))
    decreases |keys|
  {
    if |keys| > 0 {
      var line := FieldLine(keys[0], Attribute(r, keys[0]).value);
      assert HasKeys(r, keys[1..]) by {
        forall i | 0 <= i < |keys[1..]|
          ensures Attribute(r, keys[1..][i]).Some?
        {
          assert keys[1..][i] == keys[i + 1];
        }
      }
      var rest := KeyLines(r, keys[1..]).value;
      assert KeyLines(r, keys).value == line + rest;
      KeyLinesShow(r, keys[1..]);
      forall i | 0 <= i < |keys|
        ensures Text.Contains(line + rest, FieldLine(keys[i], Attribute(r, keys[i]).value))
      {
        if i == 0 {
          Text.ContainsBefore(line, rest, line);
        } else {
          assert keys[i] == keys[1..][i - 1];
          Text.ContainsAfter(line, rest, FieldLine(keys[i], Attribute(r, keys[i]).value));
        }
      }
    }
  }

  /** Every slice of a list of attributes is a list of attributes. */
  lemma HasKeysSlice(r: Record, keys: seq<string>, lo: nat, hi: nat)
    requires HasKeys(r, keys) && lo <= hi <= |keys|
    ensures HasKeys(r, keys[lo..hi])
  {
    assert forall i :: 0 <= i < hi - lo ==> keys[lo..hi][i] == keys[lo + i];
  }

  /** One key's lines are its field line. */
  lemma KeyLinesSingle(r: Record, k: string)
    requires Attribute(r, k).Some?
    ensures KeyLines(r, [k]) == Ok(FieldLine(k, Attribute(r, k).value))
  {
    assert [k][1..] == [];
    assert FieldLine(k, Attribute(r, k).value) + "" == FieldLine(k, Attribute(r, k).value);
  }

  /** The lines of two key lists in a row are the lines of the first
      followed by the lines of the second. */
  lemma {:induction false} KeyLinesAppend(r: Record, a: seq<string>, b: seq<string>)
    requires HasKeys(r, a) && HasKeys(r, b)
    ensures HasKeys(r, a + b)
    ensures KeyLines(r, a + b) == Ok(KeyLines(r, a).value + KeyLines(r, b).value)
    decreases |a|
  {
    assert forall i :: 0 <= i < |a| ==> (a + b)[i] == a[i];
    assert forall i :: |a| <= i < |a + b| ==> (a + b)[i] == b[i - |a|];
    if |a| == 0 {
      assert a + b == b;
      assert "" + KeyLines(r, b).value == KeyLines(r, b).value;
    } else {
      HasKeysCons(r, a);
      assert (a + b)[1..] == a[1..] + b;
      KeyLinesAppend(r, a[1..], b);
      var line := FieldLine(a[0], Attribute(r, a[0]).value);
      var x := KeyLines(r, a[1..]).value;
      var y := KeyLines(r, b).value;
      assert KeyLines(r, a) == Ok(line + x);
      assert KeyLines(r, a + b) == Ok(line + (x + y));
      assert line + (x + y) == (line + x) + y;
    }
  }

  /** Cutting the keys anywhere cuts their lines there. */
  lemma KeyLinesSplit(r: Record, keys: seq<string>, i: nat)
    requires HasKeys(r, keys) && i <= |keys|
    ensures KeyLines(r, keys).value == KeyLines(r, keys[..i]).value + KeyLines(r, keys[i..]).value
  {
    HasKeysSlice(r, keys, 0, i);
    HasKeysSlice(r, keys, i, |keys|);
    KeyLinesAppend(r, keys[..i], keys[i..]);
    assert keys[..i] + keys[i..] == keys;
  }

  /** Each key's line sits between the lines of the keys before it and the
      lines of the keys after it: the lines follow the order of `keys`. */
  lemma KeyLinesAt(r: Record, keys: seq<string>, i: nat)
    requires HasKeys(r, keys) && i < |keys|
    ensures KeyLines(r, keys).value
         == KeyLines(r, keys[..i]).value
          + FieldLine(keys[i], Attribute(r, keys[i]).value)
          + KeyLines(r, keys[i + 1..]).value
  {
    KeyLinesSplit(r, keys, i);
    var t := keys[i..];
    HasKeysSlice(r, keys, i, |keys|);
    HasKeysCons(r, t);
    assert t[0] == keys[i] && t[1..] == keys[i + 1..];
    var x, y, z := KeyLines(r, keys[..i]).value, FieldLine(keys[i], Attribute(r, keys[i]).value), KeyLines(r, keys[i + 1..]).value;
    assert KeyLines(r, t) == Ok(y + z);
    assert x + (y + z) == x + y + z;
  }

  /** The link to the account: `https://twitter.com/<screen_name>`. */
  function AccountUrl(r: Record): string {
    AccountUrlPrefix + r.screenName
  }

  /** `f"- account url : [{u}]({u})\n"`. */
  function AccountLine(u: string): string {
    "- account url : [" + u + "](" + u + ")\n"
  }

  /** The `urls` line: the expanded URLs joined by line breaks. */
  function UrlsLine(r: Record): string {
    FieldLine("urls", Text.Join("\n", GetExpandedUrls(r)))
  }

  /** `f"""\n\n<img src=".{path}" width="200px">\n"""`: the picture path
      seen from the report's directory. */
  function ImageTag(path: string): string {
    "\n\n<img src=\"." + path + "\" width=\"200px\">\n"
  }

  /** The path of the record's cached profile picture. */
  function PicturePath(r: Record): string {
    Paths.GetProfileJpgPath(r).path
  }

  /** What follows the attribute lines: the `urls` line, the account link
      and the image tag. */
  function Tail(r: Record): string {
    UrlsLine(r) + AccountLine(AccountUrl(r)) + ImageTag(PicturePath(r))
  }

  /** The text of `markdown_one_user` for the keys `keys`: the rule, the
      attribute lines and the tail. The first key that is not an attribute
      raises `KeyError`. */
  function Block(r: Record, keys: seq<string>): (res: Result<string>)
    ensures res.Ok? <==> HasKeys(r, keys)
    ensures res.Err? ==> FirstMissing(r, keys, res.error)
  {
    match KeyLines(r, keys)
    case Err(e) => Err(e)
    case Ok(lines) => Ok(Rule + lines + Tail(r))
  }

  /** The tail shows the `urls` line and the account link, and ends with
      the image tag. */
  lemma TailLayout(r: Record)
    ensures Text.Contains(Tail(r), UrlsLine(r))
    ensures Text.Contains(Tail(r), AccountLine(AccountUrl(r)))
    ensures Text.EndsWith(Tail(r), ImageTag(PicturePath(r)))
  {
    var u := UrlsLine(r);
    var a := AccountLine(AccountUrl(r));
    var tag := ImageTag(PicturePath(r));
    Text.ContainsBefore(u, a, u);
    Text.ContainsBefore(u + a, tag, u);
    Text.ContainsAfter(u, a, a);
    Text.ContainsBefore(u + a, tag, a);
    Text.EndsWithAppend(u + a, tag, tag);
  }

  /** What a block shows: it opens with the rule, shows one line per key
      with the key's value, the `urls` line and the account link, and ends
      with the image tag of the record's picture. */
  lemma BlockLayout(r: Record, keys: seq<string>)
    requires HasKeys(r, keys)
    ensures Block(r, keys).value
         == Rule + KeyLines(r, keys).value + UrlsLine(r) + AccountLine(AccountUrl(r)) + ImageTag(PicturePath(r))
    ensures var s := Block(r, keys).value;
      && |Rule| <= |s| && s[..|Rule|] == Rule
      && Text.EndsWith(s, ImageTag(PicturePath(r)))
      && (forall i :: 0 <= i < |keys| ==>
            Text.Contains(s, FieldLine(keys[i], Attribute(r, keys[i]).value)))
      && Text.Contains(s, UrlsLine(r))
      && Text.Contains(s, AccountLine(AccountUrl(r)))
  {
    var lines := KeyLines(r, keys).value;
    assert Block(r, keys).value == Rule + lines + Tail(r);
    BlockShape(r, keys);
    HeadShowsKeys(r, keys, lines, Tail(r));
    TailLayout(r);
    AfterHead(Rule + lines, Tail(r), UrlsLine(r), AccountLine(AccountUrl(r)), ImageTag(PicturePath(r)));
  }

  /** A block is the rule, the key lines, the `urls` line, the account
      link and the image tag, in this order. */
  lemma BlockShape(r: Record, keys: seq<string>)
    requires HasKeys(r, keys)
    ensures Block(r, keys).value
         == Rule + KeyLines(r, keys).value + UrlsLine(r) + AccountLine(AccountUrl(r)) + ImageTag(PicturePath(r))
  {
    var head := Rule + KeyLines(r, keys).value;
    var u, a, t := UrlsLine(r), AccountLine(AccountUrl(r)), ImageTag(PicturePath(r));
    assert Block(r, keys).value == head + (u + a + t);
    assert head + ((u + a) + t) == (head + (u + a)) + t;
    assert head + (u + a) == (head + u) + a;
  }

  /** The attribute lines, and so any text they start, show every key. */
  lemma HeadShowsKeys(r: Record, keys: seq<string>, lines: string, tail: string)
    requires HasKeys(r, keys) && lines == KeyLines(r, keys).value
    ensures forall i :: 0 <= i < |keys| ==>
      Text.Contains(Rule + lines + tail, FieldLine(keys[i], Attribute(r, keys[i]).value))
  {
    KeyLinesShow(r, keys);
    forall i | 0 <= i < |keys|
      ensures Text.Contains(Rule + lines + tail, FieldLine(keys[i], Attribute(r, keys[i]).value))
    {
      Text.ContainsAfter(Rule, lines, FieldLine(keys[i], Attribute(r, keys[i]).value));
      Text.ContainsBefore(Rule + lines, tail, FieldLine(keys[i], Attribute(r, keys[i]).value));
    }
  }

  /** What the tail shows, the block shows after the rule and the lines. */
  lemma AfterHead(head: string, tail: string, u: string, a: string, tag: string)
    requires |Rule| <= |head| && head[..|Rule|] == Rule
    requires Text.Contains(tail, u) && Text.Contains(tail, a) && Text.EndsWith(tail, tag)
    ensures var s := head + tail;
      && |Rule| <= |s| && s[..|Rule|] == Rule
      && Text.Contains(s, u) && Text.Contains(s, a) && Text.EndsWith(s, tag)
  {
    Text.ContainsAfter(head, tail, u);
    Text.ContainsAfter(head, tail, a);
    Text.EndsWithAppend(head, tail, tag);
    assert (head + tail)[..|Rule|] == head[..|Rule|];
  }

  /** `keys=None` selects `default_keys`. */
  function KeysOrDefault(keys: Option<seq<string>>): seq<string> {
    if keys.None? then DefaultKeys else keys.value
  }

  /** One rendered block, the picture files afterwards, and whether the
      picture had to be downloaded. */
  datatype Rendered = Rendered(text: string, images: Images, fetched: bool)

  /** `markdown_one_user(r, keys)` against the picture files `images`. A
      missing key raises before the picture is looked at; otherwise the
      picture is downloaded when its path does not exist yet. */
  function MarkdownOneUser(r: Record, keys: Option<seq<string>>, images: Images): (res: Result<Rendered>)
    ensures res.Ok? <==> HasKeys(r, KeysOrDefault(keys))
    ensures res.Err? ==> FirstMissing(r, KeysOrDefault(keys), res.error)
    ensures res.Ok? ==> Block(r, KeysOrDefault(keys)) == Ok(res.value.text)
    ensures res.Ok? ==>
      var path := PicturePath(r);
      && res.value.images == images + {path}
      && (res.value.fetched <==> path !in images)
  {
    match Block(r, KeysOrDefault(keys))
    case Err(e) => Err(e)
    case Ok(text) =>
      var path := PicturePath(r);
      Ok(Rendered(text, images + {path}, path !in images))
  }

  /** The image tag that ends a block names a picture that exists once the
      block is rendered. */
  lemma ImageTagIsCached(r: Record, keys: Option<seq<string>>, images: Images)
    requires HasKeys(r, KeysOrDefault(keys))
    ensures var u := MarkdownOneUser(r, keys, images).value;
      exists path :: path in u.images && Text.EndsWith(u.text, ImageTag(path))
  {
    BlockLayout(r, KeysOrDefault(keys));
    var u := MarkdownOneUser(r, keys, images).value;
    assert PicturePath(r) in u.images && Text.EndsWith(u.text, ImageTag(PicturePath(r)));
  }

  /** With the default keys a record renders exactly when it carries the
      four attributes that are not typed fields of `Record`. */
  lemma DefaultKeysRender(r: Record, images: Images)
    ensures MarkdownOneUser(r, None, images).Ok? <==>
      && "location" in r.others
      && "profile_location" in r.others
      && "description" in r.others
      && "following" in r.others
  {
    DefaultKeysPresent(r);
  }

  /** The default keys are all attributes exactly when the four untyped
      ones are. */
  lemma DefaultKeysPresent(r: Record)
    ensures HasKeys(r, DefaultKeys) <==>
      && "location" in r.others
      && "profile_location" in r.others
      && "description" in r.others
      && "following" in r.others
  {
    var ks := DefaultKeys;
    TypedKeysPresent(r);
    UntypedKeys(r);
    assert ks == ["name", "screen_name", "id", "location", "profile_location",
                  "description", "followers_count", "friends_count", "following"];
    if "location" in r.others && "profile_location" in r.others && "description" in r.others && "following" in r.others {
      forall i | 0 <= i < |ks|
        ensures Attribute(r, ks[i]).Some?
      {
      }
    } else {
      assert !(Attribute(r, ks[3]).Some? && Attribute(r, ks[4]).Some? && Attribute(r, ks[5]).Some? && Attribute(r, ks[8]).Some?);
    }
  }

  lemma TypedKeysPresent(r: Record)
    ensures Attribute(r, "name").Some? && Attribute(r, "screen_name").Some? && Attribute(r, "id").Some?
    ensures Attribute(r, "followers_count").Some? && Attribute(r, "friends_count").Some?
  {
  }

  lemma UntypedKeys(r: Record)
    ensures Attribute(r, "location").Some? <==> "location" in r.others
    ensures Attribute(r, "profile_location").Some? <==> "profile_location" in r.others
    ensures Attribute(r, "description").Some? <==> "description" in r.others
    ensures Attribute(r, "following").Some? <==> "following" in r.others
  {
  }

  /** Rendering a record a second time downloads nothing, keeps the picture
      files, and yields the same text. */
  lemma RenderAgain(r: Record, keys: Option<seq<string>>, images: Images)
    requires HasKeys(r, KeysOrDefault(keys))
    ensures var first := MarkdownOneUser(r, keys, images).value;
      MarkdownOneUser(r, keys, first.images) == Ok(Rendered(first.text, first.images, false))
  {
  }

  /** The picture paths of the records of `rs`. */
  function PathsOf(rs: seq<Record>): set<string> {
    set r | r in rs :: PicturePath(r)
  }

  /** Every record of `rs` renders with `keys`. */
  predicate AllHaveKeys(rs: seq<Record>, keys: seq<string>) {
    forall i :: 0 <= i < |rs| ==> HasKeys(rs[i], keys)
  }

  /** The blocks of `rs`, in order. */
  function Blocks(rs: seq<Record>, keys: seq<string>): (bs: seq<string>)
    requires AllHaveKeys(rs, keys)
    ensures |bs| == |rs|
    decreases |rs|
  {
    if |rs| == 0 then []
    else
      var init := rs[..|rs| - 1];
      SnocKeys(rs, keys);
      Blocks(init, keys) + [Block(rs[|rs| - 1], keys).value]
  }

  /** The `i`-th block is the `i`-th record's. */
  lemma {:induction false} BlocksAt(rs: seq<Record>, keys: seq<string>, i: nat)
    requires AllHaveKeys(rs, keys)
    requires i < |rs|
    ensures Block(rs[i], keys) == Ok(Blocks(rs, keys)[i])
    decreases |rs|
  {
    SnocKeys(rs, keys);
    if i < |rs| - 1 {
      BlocksAt(rs[..|rs| - 1], keys, i);
    }
  }

  /** The report, the picture files afterwards and the number of downloads. */
  datatype Document = Document(text: Result<string>, images: Images, fetches: nat)

  /** `markdown_multiple_users(rs, keys)`: the blocks joined by a line
      break. The first record missing a key raises; pictures downloaded for
      the records before it stay downloaded (`MultipleUsersFailure`). */
  function MarkdownMultipleUsers(rs: seq<Record>, keys: Option<seq<string>>, images: Images): (d: Document)
    ensures d.text.Ok? <==> AllHaveKeys(rs, KeysOrDefault(keys))
    ensures d.text.Err? ==> d.text.error.KeyError?
    ensures d.text.Ok? ==> d.text.value == Text.Join("\n", Blocks(rs, KeysOrDefault(keys)))
    ensures images <= d.images <= images + PathsOf(rs)
    ensures d.text.Ok? ==> d.images == images + PathsOf(rs)
    ensures d.text.Ok? ==> d.fetches == |PathsOf(rs) - images|
    decreases |rs|
  {
    var ks := KeysOrDefault(keys);
    if |rs| == 0 then
      assert PathsOf(rs) == {};
      Document(Ok(""), images, 0)
    else
      var init := rs[..|rs| - 1];
      var d := MarkdownMultipleUsers(init, keys, images);
      PathsOfSnoc(rs);
      if d.text.Err? then
        SnocKeys(rs, ks);
        d
      else
        var one := MarkdownOneUser(rs[|rs| - 1], keys, d.images);
        SnocKeys(rs, ks);
        if one.Err? then
          Document(Err(one.error), d.images, d.fetches)
        else
          var u := one.value;
          var text := if |rs| == 1 then u.text else d.text.value + "\n" + u.text;
          var next := Document(Ok(text), u.images, d.fetches + if u.fetched then 1 else 0);
          AppendText(rs, ks, d.text.value, u.text, text);
          AppendPicture(rs, images, d.images, d.fetches, u.images, u.fetched, next.fetches);
          next
  }

  /** The report `d` stopped at record `j`: every earlier record renders,
      record `j` raises the `KeyError` of its first missing key, and the
      pictures of exactly the earlier records have been downloaded. */
  ghost predicate FailsAt(rs: seq<Record>, ks: seq<string>, images: Images, d: Document, j: int) {
    && 0 <= j < |rs|
    && d.text.Err?
    && AllHaveKeys(rs[..j], ks)
    && !HasKeys(rs[j], ks)
    && FirstMissing(rs[j], ks, d.text.error)
    && d.images == images + PathsOf(rs[..j])
    && d.fetches == |PathsOf(rs[..j]) - images|
  }

  /** A failed report raises for the first record that lacks a key, after
      downloading the pictures of the records before it. */
  lemma {:induction false} MultipleUsersFailure(rs: seq<Record>, keys: Option<seq<string>>, images: Images)
    ensures var d := MarkdownMultipleUsers(rs, keys, images);
      d.text.Err? ==> exists j :: FailsAt(rs, KeysOrDefault(keys), images, d, j)
    decreases |rs|
  {
    var ks := KeysOrDefault(keys);
    var d := MarkdownMultipleUsers(rs, keys, images);
    if |rs| > 0 && d.text.Err? {
      var init := rs[..|rs| - 1];
      var prev := MarkdownMultipleUsers(init, keys, images);
      if prev.text.Err? {
        assert d == prev;
        MultipleUsersFailure(init, keys, images);
        var j :| FailsAt(init, ks, images, prev, j);
        EarlierFails(rs, ks, images, d, j);
      } else {
        var one := MarkdownOneUser(rs[|rs| - 1], keys, prev.images);
        assert one.Err? && d == Document(Err(one.error), prev.images, prev.fetches);
        LastFails(rs, ks, images, prev, d);
      }
    }
  }

  /** A failure among the earlier records is the failure of the whole list. */
  lemma EarlierFails(rs: seq<Record>, ks: seq<string>, images: Images, d: Document, j: int)
    requires |rs| > 0
    requires FailsAt(rs[..|rs| - 1], ks, images, d, j)
    ensures FailsAt(rs, ks, images, d, j)
  {
    InitPrefix(rs, j);
  }

  /** Cutting the last element off and then taking a shorter prefix is taking that prefix. */
  lemma InitPrefix<T>(s: seq<T>, j: int)
    requires 0 <= j < |s|
    ensures s[..|s| - 1][..j] == s[..j]
  {
  }

  /** When every earlier record renders, a failure is at the last record. */
  lemma LastFails(rs: seq<Record>, ks: seq<string>, images: Images, prev: Document, d: Document)
    requires |rs| > 0
    requires AllHaveKeys(rs[..|rs| - 1], ks)
    requires prev.images == images + PathsOf(rs[..|rs| - 1])
    requires prev.fetches == |PathsOf(rs[..|rs| - 1]) - images|
    requires d.text.Err? && !HasKeys(rs[|rs| - 1], ks) && FirstMissing(rs[|rs| - 1], ks, d.text.error)
    requires d.images == prev.images && d.fetches == prev.fetches
    ensures FailsAt(rs, ks, images, d, |rs| - 1)
  {
  }

  /** One step of the report text when every record renders. */
  lemma AppendText(rs: seq<Record>, ks: seq<string>, prev: string, last: string, text: string)
    requires |rs| > 0
    requires AllHaveKeys(rs[..|rs| - 1], ks)
    requires prev == Text.Join("\n", Blocks(rs[..|rs| - 1], ks))
    requires HasKeys(rs[|rs| - 1], ks) && Block(rs[|rs| - 1], ks) == Ok(last)
    requires text == if |rs| == 1 then last else prev + "\n" + last
    ensures AllHaveKeys(rs, ks)
    ensures text == Text.Join("\n", Blocks(rs, ks))
  {
    SnocKeys(rs, ks);
    ReportStep(rs, ks, prev, last);
  }

  /** One step of the picture files and the download count. */
  lemma AppendPicture(rs: seq<Record>, images: Images, before: Images, fetches: nat,
                      after: Images, fetched: bool, total: nat)
    requires |rs| > 0
    requires before == images + PathsOf(rs[..|rs| - 1])
    requires fetches == |PathsOf(rs[..|rs| - 1]) - images|
    requires after == before + {PicturePath(rs[|rs| - 1])}
    requires fetched <==> PicturePath(rs[|rs| - 1]) !in before
    requires total == fetches + if fetched then 1 else 0
    ensures after == images + PathsOf(rs)
    ensures total == |PathsOf(rs) - images|
  {
    PathsOfSnoc(rs);
    NewPathStep(PicturePath(rs[|rs| - 1]), PathsOf(rs[..|rs| - 1]), images, before);
  }

  /** All records render exactly when the earlier ones and the last one do. */
  lemma SnocKeys(rs: seq<Record>, keys: seq<string>)
    requires |rs| > 0
    ensures AllHaveKeys(rs, keys) <==> AllHaveKeys(rs[..|rs| - 1], keys) && HasKeys(rs[|rs| - 1], keys)
  {
    var init := rs[..|rs| - 1];
    assert forall i :: 0 <= i < |init| ==> init[i] == rs[i];
  }

  /** One step of the report: the joined blocks of all records are those of
      the earlier ones, a line break and the last record's block. */
  lemma ReportStep(rs: seq<Record>, keys: seq<string>, prev: string, last: string)
    requires |rs| > 0
    requires AllHaveKeys(rs, keys)
    requires AllHaveKeys(rs[..|rs| - 1], keys)
    requires prev == Text.Join("\n", Blocks(rs[..|rs| - 1], keys))
    requires Block(rs[|rs| - 1], keys) == Ok(last)
    ensures Text.Join("\n", Blocks(rs, keys)) == if |rs| == 1 then last else prev + "\n" + last
  {
    JoinAppend(Blocks(rs[..|rs| - 1], keys), last);
  }

  /** Appending a block to the report adds a line break and the block,
      unless it is the first. */
  lemma JoinAppend(bs: seq<string>, b: string)
    ensures Text.Join("\n", bs + [b]) == if |bs| == 0 then b else Text.Join("\n", bs) + "\n" + b
  {
    if |bs| > 0 {
      Text.JoinSnoc("\n", bs, b);
    }
  }

  lemma PathsOfSnoc(rs: seq<Record>)
    requires |rs| > 0
    ensures PathsOf(rs) == PathsOf(rs[..|rs| - 1]) + {PicturePath(rs[|rs| - 1])}
  {
    var init := rs[..|rs| - 1];
    assert forall r :: r in rs <==> r in init || r == rs[|rs| - 1];
  }

  /** One step of the download count: the last record's picture is new
      exactly when it is neither cached nor shared with an earlier record. */
  lemma NewPathStep(p: string, earlier: set<string>, images: Images, now: Images)
    requires now == images + earlier
    ensures now + {p} == images + (earlier + {p})
    ensures |(earlier + {p}) - images| == |earlier - images| + (if p in now then 0 else 1)
  {
    if p in now {
      assert (earlier + {p}) - images == earlier - images;
    } else {
      assert (earlier + {p}) - images == (earlier - images) + {p};
    }
  }

  /** Rendering the same records again against the pictures a successful
      report left behind downloads nothing and yields the same report. */
  lemma RerenderFetchesNothing(rs: seq<Record>, keys: Option<seq<string>>, images: Images)
    requires AllHaveKeys(rs, KeysOrDefault(keys))
    ensures var first := MarkdownMultipleUsers(rs, keys, images);
      MarkdownMultipleUsers(rs, keys, first.images) == Document(first.text, first.images, 0)
  {
    var first := MarkdownMultipleUsers(rs, keys, images);
    assert PathsOf(rs) - first.images == {};
  }

  /** A report of one record is that record's block. */
  lemma OneUserReport(r: Record, keys: Option<seq<string>>, images: Images)
    requires HasKeys(r, KeysOrDefault(keys))
    ensures MarkdownMultipleUsers([r], keys, images).text == Ok(MarkdownOneUser(r, keys, images).value.text)
  {
    assert AllHaveKeys([r], KeysOrDefault(keys));
  }
}
