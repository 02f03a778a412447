/** UTF-8 as `unicode/utf8` reads and writes it (section 3 of RFC 3629): bytes that are no valid
    sequence read as U+FFFD of size 1, the empty string as U+FFFD of size 0. */
module Utf8 {
  import opened GoInts

  const REPLACEMENT := 0xFFFD

  datatype Rune = Rune(code: nat, size: nat)

  predicate Tail(b: byte)
  {
    0x80 <= b <= 0xBF
  }

  /** The second byte allowed after the first of a sequence of three or four. */
  predicate Second(first: byte, b: byte)
  {
    match first
    case 0xE0 => 0xA0 <= b <= 0xBF
    case 0xED => 0x80 <= b <= 0x9F
    case 0xF0 => 0x90 <= b <= 0xBF
    case 0xF4 => 0x80 <= b <= 0x8F
    case _ => Tail(b)
  }

  /** `utf8.DecodeRuneInString`. */
  function DecodeRune(s: bytes): (r: Rune)
    ensures r.size <= |s|
    ensures r.size >= 2 ==> s[0] >= 0xC2
  {
    if |s| == 0 then Rune(REPLACEMENT, 0)
    else if s[0] < 0x80 then Rune(s[0], 1)
    else if 0xC2 <= s[0] <= 0xDF && |s| >= 2 && Tail(s[1]) then
      Rune(64 * Bits(s[0], 0xC0) + Bits(s[1], 0x80), 2)
    else if 0xE0 <= s[0] <= 0xEF && |s| >= 3 && Second(s[0], s[1]) && Tail(s[2]) then
      Rune(4096 * Bits(s[0], 0xE0) + 64 * Bits(s[1], 0x80) + Bits(s[2], 0x80), 3)
    else if 0xF0 <= s[0] <= 0xF4 && |s| >= 4 && Second(s[0], s[1]) && Tail(s[2]) && Tail(s[3]) then
      Rune(262144 * Bits(s[0], 0xF0) + 4096 * Bits(s[1], 0x80) + 64 * Bits(s[2], 0x80) + Bits(s[3], 0x80), 4)
    else Rune(REPLACEMENT, 1)
  }

  /** The payload of a byte once its marker bits are gone. */
  function Bits(b: byte, marker: nat): (r: nat)
    requires marker <= b
  {
    b - marker
  }

  /** `string(r)`. */
  function EncodeRune(r: nat): (s: bytes)
  {
    if r < 0x80 then [r]
    else if r < 0x800 then [0xC0 + r / 64, 0x80 + r % 64]
    else if 0xD800 <= r <= 0xDFFF || r > 0x10FFFF then [0xEF, 0xBF, 0xBD]
    else if r < 0x10000 then [0xE0 + r / 4096, 0x80 + r / 64 % 64, 0x80 + r % 64]
    else [0xF0 + r / 262144, 0x80 + r / 4096 % 64, 0x80 + r / 64 % 64, 0x80 + r % 64]
  }

  /** A code point that is no surrogate. */
  predicate Scalar(r: nat)
  {
    r < 0xD800 || 0xE000 <= r <= 0x10FFFF
  }

  lemma Digits(r: nat)
    ensures r == 64 * (r / 64) + r % 64
    ensures r / 64 == 64 * (r / 4096) + r / 64 % 64
    ensures r / 4096 == 64 * (r / 262144) + r / 4096 % 64
  {
  }

  /** Every code point is read back from its bytes, whatever comes behind them. */
  lemma DecodesEncoded(r: nat, rest: bytes)
    requires Scalar(r)
    ensures 1 <= |EncodeRune(r)| <= 4 && DecodeRune(EncodeRune(r) + rest) == Rune(r, |EncodeRune(r)|)
  {
    var s := EncodeRune(r);
    Digits(r);
    assert forall i :: 0 <= i < |s| ==> (s + rest)[i] == s[i];
  }

  lemma Compose(x: nat, b: nat)
    requires b < 64
    ensures (64 * x + b) / 64 == x && (64 * x + b) % 64 == b
  {
  }

  lemma TwoBytes(a: nat, b: nat)
    requires 2 <= a < 32 && b < 64
    ensures EncodeRune(64 * a + b) == [0xC0 + a, 0x80 + b]
  {
    Compose(a, b);
  }

  lemma ThreeBytes(a: nat, b: nat, c: nat)
    requires a < 16 && b < 64 && c < 64 && (a == 0 ==> b >= 32) && (a == 13 ==> b < 32)
    ensures var r := 4096 * a + 64 * b + c; Scalar(r) && EncodeRune(r) == [0xE0 + a, 0x80 + b, 0x80 + c]
  {
    Compose(64 * a + b, c);
    Compose(a, b);
    var r := 4096 * a + 64 * b + c;
    assert r / 64 == 64 * a + b && r / 4096 == a;
  }

  lemma FourBytes(a: nat, b: nat, c: nat, d: nat)
    requires a < 5 && b < 64 && c < 64 && d < 64 && (a == 0 ==> b >= 16) && (a == 4 ==> b < 16)
    ensures var r := 262144 * a + 4096 * b + 64 * c + d;
      Scalar(r) && EncodeRune(r) == [0xF0 + a, 0x80 + b, 0x80 + c, 0x80 + d]
  {
    Compose(4096 * a + 64 * b + c, d);
    Compose(64 * a + b, c);
    Compose(a, b);
    var r := 262144 * a + 4096 * b + 64 * c + d;
    assert r / 64 == 4096 * a + 64 * b + c && r / 4096 == 64 * a + b && r / 262144 == a;
  }

  /** And what is read as a valid sequence are the bytes of a code point: none is read from more bytes than it takes. */
  lemma DecodedIsEncoded(s: bytes)
    requires |s| > 0 && DecodeRune(s) != Rune(REPLACEMENT, 1)
    ensures var r := DecodeRune(s); Scalar(r.code) && 1 <= r.size <= |s| && s[..r.size] == EncodeRune(r.code)
  {
    var size := DecodeRune(s).size;
    hide EncodeRune;
    if size == 1 {
      assert s[..1] == [s[0]];
      OneByte(s[0]);
    } else if size == 2 {
      assert s[..2] == [s[0], s[1]];
      TwoBytes(s[0] - 0xC0, s[1] - 0x80);
    } else if size == 3 {
      assert s[..3] == [s[0], s[1], s[2]];
      ThreeBytes(s[0] - 0xE0, s[1] - 0x80, s[2] - 0x80);
    } else {
      assert s[..4] == [s[0], s[1], s[2], s[3]];
      FourBytes(s[0] - 0xF0, s[1] - 0x80, s[2] - 0x80, s[3] - 0x80);
    }
  }

  lemma OneByte(b: byte)
    requires b < 0x80
    ensures EncodeRune(b) == [b]
  {
  }

  /** Every code point above the surrogates and below U+10000 takes three bytes and comes back. */
  lemma DecodeEncoded(r: nat, rest: bytes)
    requires 0xE000 <= r < 0x10000
    ensures |EncodeRune(r)| == 3
    ensures DecodeRune(EncodeRune(r) + rest) == Rune(r, 3)
  {
    var s := EncodeRune(r);
    assert s[0] >= 0xEE;
    assert (s + rest)[0] == s[0] && (s + rest)[1] == s[1] && (s + rest)[2] == s[2];
    assert r == 4096 * (r / 4096) + 64 * (r / 64 % 64) + r % 64;
  }
}

/** Tags as a flat list of strings. A common tag becomes one private-use character, a common key one
    control character before its value; any other tag takes two strings, and a key that could be
    mistaken for one of those is escaped with U+FFFD. */
module TagCodec {
  import opened GoInts
  import opened Utf8

  type Tags = map<bytes, bytes>
  datatype Tag = Tag(key: bytes, value: bytes)

  const MIN_CODE_POINT := 0xE000
  const MAX_CODE_POINT := 0xF8FF
  const MAX_KEY_CODE_POINT := 31

  /** The package's tables, in both directions. */
  datatype Tables = Tables(
    tagsToCodePoint: map<bytes, map<bytes, int>>,
    codePointToTag: map<int, Tag>,
    commonKeys: map<bytes, int>,
    codePointToCommonKey: map<int, bytes>,
    nextCodePoint: int,
    nextKeyCodePoint: int)
  {
    ghost predicate Valid()
    {
      && MIN_CODE_POINT <= nextCodePoint <= MAX_CODE_POINT + 1
      && 1 <= nextKeyCodePoint <= MAX_KEY_CODE_POINT + 1
      && (forall k, v | CodePoint(k, v).Some? ::
            var c := CodePoint(k, v).value;
            MIN_CODE_POINT <= c < nextCodePoint && c in codePointToTag && codePointToTag[c] == Tag(k, v))
      && (forall c :: MIN_CODE_POINT <= c < nextCodePoint ==>
            c in codePointToTag && CodePoint(codePointToTag[c].key, codePointToTag[c].value) == Some(c))
      && (forall c :: 1 <= c < nextKeyCodePoint ==> c in codePointToCommonKey)
      && (forall k <- commonKeys ::
            var c := commonKeys[k];
            1 <= c < nextKeyCodePoint && c in codePointToCommonKey && codePointToCommonKey[c] == k)
    }

    /** Every code of a common key is that of the key it stands for. */
    ghost predicate KeysInverse()
    {
      forall c :: 1 <= c < nextKeyCodePoint && c in codePointToCommonKey ==>
        codePointToCommonKey[c] in commonKeys && commonKeys[codePointToCommonKey[c]] == c
    }

    function CodePoint(key: bytes, value: bytes): (r: Option<int>)
    {
      if key in tagsToCodePoint && value in tagsToCodePoint[key]
      then Some(tagsToCodePoint[key][value]) else None
    }

    /** The tables with the next free code point given to a tag. */
    function WithTag(key: bytes, value: bytes): (t: Tables)
      ensures forall k, v ::
        t.CodePoint(k, v) == if k == key && v == value then Some(nextCodePoint) else CodePoint(k, v)
    {
      var values := if key in tagsToCodePoint then tagsToCodePoint[key] else map[];
      this.(tagsToCodePoint := tagsToCodePoint[key := values[value := nextCodePoint]],
            codePointToTag := codePointToTag[nextCodePoint := Tag(key, value)],
            nextCodePoint := nextCodePoint + 1)
    }

    lemma WithTagValid(key: bytes, value: bytes)
      requires Valid() && nextCodePoint <= MAX_CODE_POINT && CodePoint(key, value) == None
      ensures WithTag(key, value).Valid()
    {
      var t := WithTag(key, value);
      forall k, v | t.CodePoint(k, v).Some?
        ensures var c := t.CodePoint(k, v).value;
          MIN_CODE_POINT <= c < t.nextCodePoint && c in t.codePointToTag && t.codePointToTag[c] == Tag(k, v)
      {
        if k != key || v != value { assert CodePoint(k, v).Some?; }
      }
      forall c | MIN_CODE_POINT <= c < t.nextCodePoint
        ensures c in t.codePointToTag && t.CodePoint(t.codePointToTag[c].key, t.codePointToTag[c].value) == Some(c)
      {
        if c < nextCodePoint { assert t.codePointToTag[c] == codePointToTag[c]; }
      }
    }

    /** The tables with the next free code given to a common key. */
    function WithKey(key: bytes): (t: Tables)
    {
      this.(commonKeys := commonKeys[key := nextKeyCodePoint],
            codePointToCommonKey := codePointToCommonKey[nextKeyCodePoint := key],
            nextKeyCodePoint := nextKeyCodePoint + 1)
    }

    lemma WithKeyInverse(key: bytes)
      requires Valid()
      ensures WithKey(key).KeysInverse() <==> KeysInverse() && key !in commonKeys
    {
      var t := WithKey(key);
      if key in commonKeys {
        assert t.codePointToCommonKey[commonKeys[key]] == key && t.commonKeys[key] != commonKeys[key];
      } else if t.KeysInverse() {
        forall c | 1 <= c < nextKeyCodePoint
          ensures codePointToCommonKey[c] in commonKeys && commonKeys[codePointToCommonKey[c]] == c
        {
          assert t.codePointToCommonKey[c] == codePointToCommonKey[c];
        }
      }
    }
  }

  /** The global tables, filled by `init` and constant afterwards. A call that panics reports false. */
  class Registry {
    var tables: Tables

    constructor ()
      ensures tables.Valid() && tables.KeysInverse()
      ensures forall k, v :: tables.CodePoint(k, v) == None
    {
      tables := Tables(map[], map[], map[], map[], MIN_CODE_POINT, 1);
    }

    method AddTagCodePoint(key: bytes, value: bytes) returns (ok: bool)
      requires tables.Valid()
      modifies this
      ensures tables.Valid()
      ensures ok <==> old(tables.nextCodePoint <= MAX_CODE_POINT && tables.CodePoint(key, value) == None)
      ensures !ok ==> tables == old(tables)
      ensures ok ==> forall k, v ::
                tables.CodePoint(k, v) ==
                  if k == key && v == value then Some(old(tables.nextCodePoint)) else old(tables).CodePoint(k, v)
      ensures tables.commonKeys == old(tables.commonKeys) && (old(tables.KeysInverse()) <==> tables.KeysInverse())
    {
      if tables.nextCodePoint > MAX_CODE_POINT { return false; }
      if tables.CodePoint(key, value).Some? { return false; }
      tables.WithTagValid(key, value);
      tables := tables.WithTag(key, value);
      ok := true;
    }

    /** A key that is added again gets a second code, and the first one still leads to it. */
    method AddCommonKey(key: bytes) returns (ok: bool)
      requires tables.Valid()
      modifies this
      ensures tables.Valid()
      ensures ok <==> old(tables.nextKeyCodePoint) <= MAX_KEY_CODE_POINT
      ensures tables.commonKeys ==
        if ok then old(tables.commonKeys)[key := old(tables.nextKeyCodePoint)] else old(tables.commonKeys)
      ensures tables.KeysInverse() <==> old(tables.KeysInverse()) && (ok ==> key !in old(tables.commonKeys))
      ensures forall k, v :: tables.CodePoint(k, v) == old(tables).CodePoint(k, v)
    {
      if tables.nextKeyCodePoint > MAX_KEY_CODE_POINT { return false; }
      tables.WithKeyInverse(key);
      tables := tables.WithKey(key);
      assert forall k, v :: tables.CodePoint(k, v) == old(tables).CodePoint(k, v);
      ok := true;
    }
  }

  /** Whether a reader could take the key for an escape or for an entry of the tables. */
  predicate Ambiguous(key: bytes)
  {
    || (|key| > 0 && key[0] < 32)
    || (var r := DecodeRune(key);
        r.size >= 3 && (MIN_CODE_POINT <= r.code <= MAX_CODE_POINT || r.code == REPLACEMENT))
  }

  /** The strings `appendTag` appends. */
  function Strings(t: Tables, key: bytes, value: bytes): (r: seq<bytes>)
    requires t.Valid()
  {
    if t.CodePoint(key, value).Some? then [EncodeRune(t.CodePoint(key, value).value)]
    else if key in t.commonKeys then [EncodeRune(t.commonKeys[key]) + value]
    else [if Ambiguous(key) then EncodeRune(REPLACEMENT) + key else key, value]
  }

  /** The first bytes of an escape or of an entry of the tables: a control byte, or one of U+E000 to U+F8FF and
      U+FFFD in UTF-8. */
  predicate Reserved(key: bytes)
  {
    || (|key| > 0 && key[0] < 32)
    || (|key| >= 3 && key[0] == 0xEE && 0x80 <= key[1] <= 0xBF && 0x80 <= key[2] <= 0xBF)
    || (|key| >= 3 && key[0] == 0xEF && 0x80 <= key[1] <= 0xA3 && 0x80 <= key[2] <= 0xBF)
    || (|key| >= 3 && key[..3] == [0xEF, 0xBF, 0xBD])
  }

  lemma AmbiguousIsReserved(key: bytes)
    ensures Ambiguous(key) <==> Reserved(key)
  {
  }

  /** What is stored of a tag. A registered tag takes three bytes, a common key one. Any other key is stored as it is,
      unless it starts like one of these: then EF BF BD is put in front of it, which is U+FFFD. */
  lemma StringsAre(t: Tables, key: bytes, value: bytes)
    requires t.Valid()
    ensures var s, known := Strings(t, key, value), t.CodePoint(key, value).Some?;
      && (known ==> |s| == 1 && |s[0]| == 3 && 0xEE <= s[0][0] <= 0xEF)
      && (!known && key in t.commonKeys ==> s == [[t.commonKeys[key]] + value] && 1 <= t.commonKeys[key] < 32)
      && (!known && key !in t.commonKeys ==>
            s == [if Reserved(key) then [0xEF, 0xBF, 0xBD] + key else key, value])
  {
    AmbiguousIsReserved(key);
  }

  /** `tagsFromArray` on what is left of the list; `None` is a panic. */
  function FromArray(t: Tables, arr: seq<bytes>, result: Tags): (r: Option<Tags>)
    decreases |arr|
  {
    if arr == [] then Some(result)
    else
      var s, r := arr[0], DecodeRune(arr[0]);
      if r.size >= 3 && r.code == REPLACEMENT then
        if |arr| < 2 then None else FromArray(t, arr[2..], result[s[r.size..] := arr[1]])
      else if r.size >= 3 && MIN_CODE_POINT <= r.code < t.nextCodePoint then
        if r.code !in t.codePointToTag then None
        else
          var tag := t.codePointToTag[r.code];
          FromArray(t, arr[1..], result[tag.key := tag.value])
      else if r.size < 3 && |s| > 0 && s[0] < 32 then
        var key := if s[0] in t.codePointToCommonKey then t.codePointToCommonKey[s[0]] else [];
        FromArray(t, arr[1..], result[key := s[1..]])
      else
        if |arr| < 2 then None else FromArray(t, arr[2..], result[s := arr[1]])
  }

  /** The reader takes back exactly the strings of one tag, whatever the key and the value are. */
  lemma OneTag(t: Tables, key: bytes, value: bytes, rest: seq<bytes>, result: Tags)
    requires t.Valid()
    ensures FromArray(t, Strings(t, key, value) + rest, result) == FromArray(t, rest, result[key := value])
  {
    var strings := Strings(t, key, value);
    var arr := strings + rest;
    assert arr[|strings|..] == rest;
    var code := t.CodePoint(key, value);
    if code.Some? {
      DecodeEncoded(code.value, []);
      assert EncodeRune(code.value) + [] == EncodeRune(code.value);
    } else if key in t.commonKeys {
      var c := t.commonKeys[key];
      assert EncodeRune(c) == [c];
      assert ([c] + value)[1..] == value;
    } else if Ambiguous(key) {
      DecodeEncoded(REPLACEMENT, key);
      assert (EncodeRune(REPLACEMENT) + key)[3..] == key;
    }
  }

  /** A list that reads without a panic reads the same with more strings behind it. */
  lemma {:induction false} Append(t: Tables, arr: seq<bytes>, more: seq<bytes>, result: Tags)
    requires FromArray(t, arr, result).Some?
    ensures FromArray(t, arr + more, result) == FromArray(t, more, FromArray(t, arr, result).value)
    decreases |arr|
  {
    if arr == [] {
      assert arr + more == more;
    } else {
      assert (arr + more)[1..] == arr[1..] + more;
      assert |arr| >= 2 ==> (arr + more)[2..] == arr[2..] + more;
      var s, r := arr[0], DecodeRune(arr[0]);
      if r.size >= 3 && r.code == REPLACEMENT {
        Append(t, arr[2..], more, result[s[r.size..] := arr[1]]);
      } else if r.size >= 3 && MIN_CODE_POINT <= r.code < t.nextCodePoint {
        var tag := t.codePointToTag[r.code];
        Append(t, arr[1..], more, result[tag.key := tag.value]);
      } else if r.size < 3 && |s| > 0 && s[0] < 32 {
        var key := if s[0] in t.codePointToCommonKey then t.codePointToCommonKey[s[0]] else [];
        Append(t, arr[1..], more, result[key := s[1..]]);
      } else {
        Append(t, arr[2..], more, result[s := arr[1]]);
      }
    }
  }

  lemma StringsFit(t: Tables, key: bytes, value: bytes)
    requires t.Valid()
    ensures |key| < TWO63 - 3 && |value| < TWO63 - 3 ==> forall s <- Strings(t, key, value) :: |s| < TWO63
  {
  }

  /** Keys and values that leave room for an escape in front of them. */
  predicate Fits(tags: Tags)
  {
    forall k <- tags :: |k| < TWO63 - 3 && |tags[k]| < TWO63 - 3
  }

  /** The strings of tags, one tag after another. */
  ghost function AllStrings(t: Tables, tags: seq<Tag>): (r: seq<bytes>)
    requires t.Valid()
  {
    if tags == [] then []
    else AllStrings(t, tags[..|tags| - 1]) + Strings(t, tags[|tags| - 1].key, tags[|tags| - 1].value)
  }

  /** The tags of the map in some order, each once. */
  ghost predicate Iterates(order: seq<Tag>, tags: Tags)
  {
    && (forall tag :: tag in order <==> tag.key in tags && tags[tag.key] == tag.value)
    && (forall i, j :: 0 <= i < j < |order| ==> order[i] != order[j])
  }

  lemma NoTags(t: Tables)
    requires t.Valid()
    ensures Iterates([], map[]) && AllStrings(t, []) == []
    ensures forall tags: Tags :: FromArray(t, [], tags) == Some(tags)
  {
  }

  lemma IteratesOne(t: Tables, order: seq<Tag>, tags: Tags, key: bytes, value: bytes)
    requires t.Valid() && Iterates(order, tags) && key !in tags
    ensures Iterates(order + [Tag(key, value)], tags[key := value])
    ensures AllStrings(t, order + [Tag(key, value)]) == AllStrings(t, order) + Strings(t, key, value)
  {
    hide Strings;
    var next := order + [Tag(key, value)];
    assert next[..|next| - 1] == order;
    assert forall i :: 0 <= i < |order| ==> order[i] in order && next[i] == order[i];
    forall tag ensures tag in next <==> tag.key in tags[key := value] && tags[key := value][tag.key] == tag.value {
      assert tag in next <==> tag in order || tag == Tag(key, value);
    }
  }

  /** `tagsAsArray`, with the map iterated in any order: reading the list back gives the tags. */
  method TagsAsArray(t: Tables, tags: Tags) returns (arr: seq<bytes>)
    requires t.Valid()
    ensures exists order :: Iterates(order, tags) && arr == AllStrings(t, order)
    ensures FromArray(t, arr, map[]) == Some(tags)
    ensures Fits(tags) ==> forall s <- arr :: |s| < TWO63
  {
    hide Strings, DecodeRune, Iterates, AllStrings, FromArray, Tables.Valid;
    arr := [];
    var todo := tags.Keys;
    ghost var done: Tags, order: seq<Tag> := map[], [];
    NoTags(t);
    while todo != {}
      invariant todo <= tags.Keys
      invariant Iterates(order, done) && arr == AllStrings(t, order)
      invariant done == tags - todo
      invariant FromArray(t, arr, map[]) == Some(done)
      invariant Fits(tags) ==> forall s <- arr :: |s| < TWO63
      decreases todo
    {
      var key :| key in todo;
      var strings := Strings(t, key, tags[key]);
      Append(t, arr, strings, map[]);
      OneTag(t, key, tags[key], [], done);
      IteratesOne(t, order, done, key, tags[key]);
      StringsFit(t, key, tags[key]);
      assert strings + [] == strings;
      arr := arr + strings;
      todo := todo - {key};
      done, order := done[key := tags[key]], order + [Tag(key, tags[key])];
    }
    assert done == tags;
  }

  /** `tagsFromArray`, string by string. */
  method TagsFromArray(t: Tables, arr: seq<bytes>) returns (r: Option<Tags>)
    ensures r == FromArray(t, arr, map[])
  {
    var result: Tags := map[];
    var i := 0;
    while i < |arr|
      invariant 0 <= i <= |arr|
      invariant FromArray(t, arr, map[]) == FromArray(t, arr[i..], result)
    {
      var s, rune := arr[i], DecodeRune(arr[i]);
      assert arr[i..][1..] == arr[i + 1..];
      assert i + 2 <= |arr| ==> arr[i..][2..] == arr[i + 2..];
      if rune.size >= 3 && rune.code == REPLACEMENT {
        if |arr| <= i + 1 { return None; }
        result := result[s[rune.size..] := arr[i + 1]];
        i := i + 2;
      } else if rune.size >= 3 && MIN_CODE_POINT <= rune.code < t.nextCodePoint {
        if rune.code !in t.codePointToTag { return None; }
        var tag := t.codePointToTag[rune.code];
        result := result[tag.key := tag.value];
        i := i + 1;
      } else if rune.size < 3 && |s| > 0 && s[0] < 32 {
        var key := if s[0] in t.codePointToCommonKey then t.codePointToCommonKey[s[0]] else [];
        result := result[key := s[1..]];
        i := i + 1;
      } else {
        if |arr| <= i + 1 { return None; }
        result := result[s := arr[i + 1]];
        i := i + 2;
      }
    }
    r := Some(result);
  }
}
