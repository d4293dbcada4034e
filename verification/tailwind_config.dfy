/** The UI package's Tailwind configuration: `transformTokens` turns the
    W3C-style token document into a theme, and `theme.extend` publishes the
    theme under Tailwind's names. */
module TailwindConfig {
  import opened Wrappers
  import opened Exceptions
  import opened Json

  /** What `transformColor` puts under one key: a token's `$value` copied
      verbatim, or the transform of the child itself. */
  datatype Shade = Leaf(value: JValue) | Group(entries: seq<(string, Shade)>)

  /** A flat scale built by `Object.fromEntries`: each key of the token group
      mapped to that entry's `$value` (None: the entry has none, `undefined`). */
  type Scale = seq<(string, Option<JValue>)>

  /** A transformed colour group: the output of `transformColor`. */
  type Palette = seq<(string, Shade)>

  datatype FontFamily = FontFamily(sans: Option<JValue>, mono: Option<JValue>)

  datatype Typography = Typography(
    fontFamily: FontFamily,
    fontSize: Scale,
    fontWeight: Scale,
    lineHeight: Scale,
    letterSpacing: Scale)

  /** The object `transformTokens` returns. */
  datatype Theme = Theme(
    color: seq<(string, Palette)>,
    spacing: Scale,
    radius: Scale,
    typography: Typography,
    shadow: Scale,
    opacity: Scale,
    zIndex: Scale,
    breakpoint: Scale)

  /** `config.theme.extend`, field by field under Tailwind's own names. */
  datatype Extend = Extend(
    colors: seq<(string, Palette)>,
    spacing: Scale,
    borderRadius: Scale,
    fontFamily: FontFamily,
    fontSize: Scale,
    fontWeight: Scale,
    lineHeight: Scale,
    letterSpacing: Scale,
    boxShadow: Scale,
    opacity: Scale,
    zIndex: Scale,
    screens: Scale)

  /** The colour groups `transformTokens` reads, in the order it reads them. */
  const ColorGroups: seq<string> :=
    ["primary", "secondary", "neutral", "success", "warning",
     "error", "info", "background", "foreground", "border"]

  /** `node.$value`. */
  function ValueField(node: JValue): Result<Option<JValue>, Exception>
  {
    Get(Some(node), "$value")
  }

  // ---------------------------------------------------------------------
  // transformColor
  // ---------------------------------------------------------------------

  /** `transformColor(node)`: for each own key of `node`, in order, the
      child's `$value` when that is truthy and otherwise the transform of the
      child. A non-empty string never bottoms out: its first property is a
      one-character string whose only property is itself (see
      `StringRecursionDoesNotShrink`), so the call stack overflows. */
  function TransformColor(node: JValue): (r: Result<Palette, Exception>)
    ensures r.Success? ==> Keys(r.value) == Keys(OwnProperties(node))
    ensures node.JNull? ==> r == Failure(ConvertNullish)
    decreases node, 1
  {
    match node
    case JNull => Failure(ConvertNullish)
    case JStr(s) => if |s| == 0 then Success([]) else Failure(StackOverflow)
    case JObj(_) => TransformEntries(node, 0)
    case JArr(_) => TransformEntries(node, 0)
    case _ => Success([])
  }

  /** The value `transformColor` stores under the key of `child`: reading
      `$value` of a `null` child throws, and a child that is walked into keeps
      its own keys, in order. */
  function TransformEntry(child: JValue): (r: Result<Shade, Exception>)
    ensures child.JNull? ==> r == Failure(ReadOfNullish(true, "$value"))
    ensures r.Success? && r.value.Group? ==> Keys(r.value.entries) == Keys(OwnProperties(child))
    decreases child, 2
  {
    var value :- ValueField(child);
    if Truthy(value) then Success(Leaf(value.value))
    else
      var entries :- TransformColor(child);
      Success(Group(entries))
  }

  /** The `forEach` loop of `transformColor`, from the `i`-th own property of
      `node` on; the first child that throws aborts the loop. */
  function TransformEntries(node: JValue, i: nat): (r: Result<Palette, Exception>)
    requires node.JObj? || node.JArr?
    requires i <= |OwnProperties(node)|
    ensures r.Success? ==> Keys(r.value) == Keys(OwnProperties(node)[i..])
    decreases node, 0, |OwnProperties(node)| - i
  {
    var props := OwnProperties(node);
    if i == |props| then Success([])
    else
      var child := match node
        case JObj(ms) => ms[i].1
        case JArr(xs) => xs[i];
      assert props[i].1 == child;
      var shade :- TransformEntry(child);
      var rest :- TransformEntries(node, i + 1);
      KeysCons(props[i..]);
      assert props[i..][1..] == props[i + 1..];
      Success([(props[i].0, shade)] + rest)
  }

  /** One step of the loop: the `i`-th child first, then the rest. */
  lemma TransformEntriesStep(node: JValue, i: nat)
    requires node.JObj? || node.JArr?
    requires i < |OwnProperties(node)|
    ensures var first := TransformEntry(OwnProperties(node)[i].1);
      var rest := TransformEntries(node, i + 1);
      TransformEntries(node, i) ==
        if first.Failure? then Failure(first.error)
        else if rest.Failure? then Failure(rest.error)
        else Success([(OwnProperties(node)[i].0, first.value)] + rest.value)
  {
  }

  /** What a successful `TransformEntry` stores for a child. */
  lemma TransformEntryMeaning(child: JValue)
    requires TransformEntry(child).Success?
    ensures ValueField(child).Success?
    ensures Truthy(ValueField(child).value) ==> TransformEntry(child).value == Leaf(ValueField(child).value.value)
    ensures !Truthy(ValueField(child).value) ==>
      TransformEntry(child).value.Group? && TransformColor(child) == Success(TransformEntry(child).value.entries)
  {
  }

  /** Entry by entry, a successful loop stores for each own property what
      `TransformEntry` computes for that child. */
  lemma {:induction false} TransformEntriesPointwise(node: JValue, i: nat)
    requires node.JObj? || node.JArr?
    requires i <= |OwnProperties(node)|
    requires TransformEntries(node, i).Success?
    ensures forall j :: i <= j < |OwnProperties(node)| ==>
      TransformEntry(OwnProperties(node)[j].1) == Success(TransformEntries(node, i).value[j - i].1)
    decreases |OwnProperties(node)| - i
  {
    var props := OwnProperties(node);
    if i < |props| {
      TransformEntriesPointwise(node, i + 1);
      TransformEntriesStep(node, i);
      var out := TransformEntries(node, i).value;
      var rest := TransformEntries(node, i + 1).value;
      var first := TransformEntry(props[i].1);
      assert first.Success? && out == [(props[i].0, first.value)] + rest;
      forall j | i < j < |props|
        ensures TransformEntry(props[j].1) == Success(out[j - i].1)
      {
        assert out[j - i] == rest[j - (i + 1)];
      }
    }
  }

  /** The entry for the `j`-th own property of `node` throws. */
  predicate ChildThrows(node: JValue, j: nat)
    requires j < |OwnProperties(node)|
  {
    TransformEntry(OwnProperties(node)[j].1).Failure?
  }

  /** The loop throws exactly when some child throws, and then it throws the
      error of the first such child. */
  lemma {:induction false} TransformEntriesFailure(node: JValue, i: nat)
    requires node.JObj? || node.JArr?
    requires i <= |OwnProperties(node)|
    ensures TransformEntries(node, i).Failure? <==>
      exists j :: i <= j < |OwnProperties(node)| && ChildThrows(node, j)
    ensures TransformEntries(node, i).Failure? ==>
      exists j :: i <= j < |OwnProperties(node)|
        && TransformEntry(OwnProperties(node)[j].1) == Failure(TransformEntries(node, i).error)
        && forall k :: i <= k < j ==> !ChildThrows(node, k)
    decreases |OwnProperties(node)| - i
  {
    var props := OwnProperties(node);
    if i < |props| {
      TransformEntriesFailure(node, i + 1);
      TransformEntriesStep(node, i);
      var first := TransformEntry(props[i].1);
      if first.Failure? {
        assert ChildThrows(node, i);
        assert TransformEntries(node, i).error == first.error;
      } else {
        assert !ChildThrows(node, i);
        assert TransformEntries(node, i).Failure? == TransformEntries(node, i + 1).Failure?;
        if TransformEntries(node, i).Failure? {
          assert TransformEntries(node, i).error == TransformEntries(node, i + 1).error;
          var j :| i + 1 <= j < |props|
            && TransformEntry(props[j].1) == Failure(TransformEntries(node, i + 1).error)
            && forall k :: i + 1 <= k < j ==> !ChildThrows(node, k);
          assert forall k :: i <= k < j ==> !ChildThrows(node, k);
        } else {
          assert forall j :: i + 1 <= j < |props| ==> !ChildThrows(node, j);
        }
      }
    }
  }

  /** The key-by-key meaning of `transformColor`: same keys in the same
      order; under each key the child's truthy `$value` verbatim, or else the
      transform of the child (so a token whose `$value` is `""` or `0` is
      walked as if it were a group). */
  lemma TransformColorEntries(node: JValue)
    requires TransformColor(node).Success?
    ensures |TransformColor(node).value| == |OwnProperties(node)|
    ensures forall j :: 0 <= j < |OwnProperties(node)| ==>
      var child := OwnProperties(node)[j].1;
      var out := TransformColor(node).value[j];
      && out.0 == OwnProperties(node)[j].0
      && ValueField(child).Success?
      && (Truthy(ValueField(child).value) ==> out.1 == Leaf(ValueField(child).value.value))
      && (!Truthy(ValueField(child).value) ==> out.1.Group? && TransformColor(child) == Success(out.1.entries))
  {
    var props := OwnProperties(node);
    var out := TransformColor(node).value;
    assert |Keys(out)| == |Keys(props)|;
    if node.JObj? || node.JArr? {
      TransformEntriesPointwise(node, 0);
      forall j | 0 <= j < |props|
        ensures out[j].0 == props[j].0
        ensures ValueField(props[j].1).Success?
        ensures Truthy(ValueField(props[j].1).value) ==> out[j].1 == Leaf(ValueField(props[j].1).value.value)
        ensures !Truthy(ValueField(props[j].1).value) ==>
          out[j].1.Group? && TransformColor(props[j].1) == Success(out[j].1.entries)
      {
        assert Keys(out)[j] == Keys(props)[j];
        assert TransformEntry(props[j].1) == Success(out[j].1);
        TransformEntryMeaning(props[j].1);
      }
    }
  }

  /** The colour transform throws exactly when the node is null, a non-empty
      string, or has a child whose entry throws. */
  lemma TransformColorFailure(node: JValue)
    ensures TransformColor(node).Failure? <==>
      || node.JNull?
      || (node.JStr? && node.s != "")
      || exists j :: 0 <= j < |OwnProperties(node)| && ChildThrows(node, j)
  {
    if node.JObj? || node.JArr? {
      TransformEntriesFailure(node, 0);
    }
  }

  /** Why a non-empty string overflows the stack: its first own property is a
      one-character string, whose `$value` is `undefined` and whose only own
      property is that same string, so `transformColor` calls itself on an
      unchanged argument. */
  lemma StringRecursionDoesNotShrink(s: string)
    requires |s| > 0
    ensures OwnProperties(JStr(s))[0].1 == JStr([s[0]])
    ensures OwnProperties(JStr([s[0]])) == [("0", JStr([s[0]]))]
    ensures !Truthy(ValueField(JStr([s[0]])).value)
  {
  }

  /** A token whose `$value` is the empty string is walked into: the output
      holds an empty group under `$value` instead of the string. */
  lemma FalsyValueBecomesGroup()
    ensures TransformColor(JObj([("muted", JObj([("$value", JStr(""))]))]))
         == Success([("muted", Group([("$value", Group([]))]))])
  {
    var token := JObj([("$value", JStr(""))]);
    assert ValueField(token) == Success(Some(JStr("")));
    assert ValueField(JStr("")) == Success(None);
    assert TransformColor(JStr("")) == Success([]);
    assert TransformEntry(JStr("")) == Success(Group([]));
    assert OwnProperties(token) == [("$value", JStr(""))];
    assert TransformEntries(token, 1) == Success([]);
    TransformEntriesStep(token, 0);
    assert [("$value", Group([]))] + [] == [("$value", Group([]))];
    assert TransformEntries(token, 0) == Success([("$value", Group([]))]);
    assert TransformColor(token) == Success([("$value", Group([]))]);
    assert TransformEntry(token) == Success(Group([("$value", Group([]))]));
    var group := JObj([("muted", token)]);
    assert OwnProperties(group) == [("muted", token)];
    assert TransformEntries(group, 1) == Success([]);
    TransformEntriesStep(group, 0);
    assert [("muted", Group([("$value", Group([]))]))] + [] == [("muted", Group([("$value", Group([]))]))];
    assert TransformEntries(group, 0) == Success([("muted", Group([("$value", Group([]))]))]);
  }

  /** A token with a falsy `$value` and a `$type` string makes the transform
      recurse into the `$type` string, which overflows the call stack. */
  lemma FalsyValueWithTypeOverflows()
    ensures TransformColor(JObj([("muted", JObj([("$value", JNum(0.0)), ("$type", JStr("color"))]))]))
         == Failure(StackOverflow)
  {
  }

  // ---------------------------------------------------------------------
  // Flat scales
  // ---------------------------------------------------------------------

  /** `entries.map(([k, v]) => [k, v.$value])`: throws at the first null entry. */
  function ScaleEntries(entries: seq<(string, JValue)>): (r: Result<Scale, Exception>)
    ensures r.Success? ==> Keys(r.value) == Keys(entries)
    decreases |entries|
  {
    if |entries| == 0 then Success([])
    else
      var value :- ValueField(entries[0].1);
      var rest :- ScaleEntries(entries[1..]);
      assert Keys(entries) == [entries[0].0] + Keys(entries[1..]);
      Success([(entries[0].0, value)] + rest)
  }

  /** Entry by entry, a flat scale holds each entry's `$value`; it throws
      exactly when some entry is null. */
  lemma {:induction false} ScaleEntriesMeaning(entries: seq<(string, JValue)>)
    ensures ScaleEntries(entries).Success? ==>
      forall j :: 0 <= j < |entries| ==> ValueField(entries[j].1) == Success(ScaleEntries(entries).value[j].1)
    ensures ScaleEntries(entries).Failure? <==> exists j :: 0 <= j < |entries| && entries[j].1.JNull?
    decreases |entries|
  {
    if |entries| > 0 {
      ScaleEntriesMeaning(entries[1..]);
      assert forall j :: 1 <= j < |entries| ==> entries[j] == entries[1..][j - 1];
      var r := ScaleEntries(entries);
      if r.Success? {
        var rest := ScaleEntries(entries[1..]).value;
        assert r.value == [(entries[0].0, ValueField(entries[0].1).value)] + rest;
        assert forall j :: 1 <= j < |entries| ==> r.value[j] == rest[j - 1];
      }
    }
  }

  /** `Object.fromEntries(Object.entries(group).map(...))` for the group that
      `read` produced: exactly the group's keys, in order, each mapped to
      that entry's `$value`; a missing or null group throws. */
  function FlatScale(read: Result<Option<JValue>, Exception>): (r: Result<Scale, Exception>)
    ensures r.Success? ==> Defined(read)
    ensures r.Success? ==> ScaleFrom(r.value, read)
    ensures read.Success? && Nullish(read.value) ==> r == Failure(ConvertNullish)
  {
    var group :- read;
    var entries :- Entries(group);
    ScaleEntriesMeaning(entries);
    ScaleEntries(entries)
  }

  /** `scale` is the flat scale of the group `read` produced: the group exists,
      and the scale has exactly its keys, in order, each mapped to that entry's
      `$value`. */
  predicate ScaleFrom(scale: Scale, read: Result<Option<JValue>, Exception>)
  {
    && Defined(read)
    && Keys(scale) == Keys(OwnProperties(read.value.value))
    && forall j :: 0 <= j < |scale| ==>
         ValueField(OwnProperties(read.value.value)[j].1) == Success(scale[j].1)
  }

  // ---------------------------------------------------------------------
  // transformTokens
  // ---------------------------------------------------------------------

  /** `tokens.path[0].path[1]...` */
  function Read(tokens: JValue, path: seq<string>): Result<Option<JValue>, Exception>
  {
    Resolve(Some(tokens), path)
  }

  /** `transformColor(tokens.color.<group>)` for one group. */
  function GroupPalette(tokens: JValue, group: string): Result<Palette, Exception>
  {
    var node :- Read(tokens, ["color", group]);
    if node.None? then Failure(ConvertNullish) else TransformColor(node.value)
  }

  /** A group's palette exists only when the document has that colour group,
      not null, and it is then `transformColor` of that group. */
  lemma GroupPaletteRead(tokens: JValue, group: string)
    requires GroupPalette(tokens, group).Success?
    ensures Defined(Read(tokens, ["color", group]))
    ensures TransformColor(Read(tokens, ["color", group]).value.value) == GroupPalette(tokens, group)
  {
  }

  /** `transformColor(tokens.color.<group>)` for each of `groups`, in order. */
  function ColorPalette(tokens: JValue, groups: seq<string>): (r: Result<seq<(string, Palette)>, Exception>)
    ensures r.Success? ==> Keys(r.value) == groups
    decreases |groups|
  {
    if |groups| == 0 then Success([])
    else
      var palette :- GroupPalette(tokens, groups[0]);
      var rest :- ColorPalette(tokens, groups[1..]);
      assert Keys([(groups[0], palette)] + rest) == [groups[0]] + Keys(rest);
      Success([(groups[0], palette)] + rest)
  }

  /** Group by group, a successful palette holds the palette of the document's
      colour group of that name. */
  lemma {:induction false} ColorPaletteEntries(tokens: JValue, groups: seq<string>)
    requires ColorPalette(tokens, groups).Success?
    ensures forall j :: 0 <= j < |groups| ==>
      GroupPalette(tokens, groups[j]) == Success(ColorPalette(tokens, groups).value[j].1)
    decreases |groups|
  {
    if |groups| > 0 {
      ColorPaletteEntries(tokens, groups[1..]);
      var r := ColorPalette(tokens, groups).value;
      var rest := ColorPalette(tokens, groups[1..]).value;
      assert r == [(groups[0], GroupPalette(tokens, groups[0]).value)] + rest;
      forall j | 1 <= j < |groups|
        ensures GroupPalette(tokens, groups[j]) == Success(r[j].1)
      {
        assert groups[j] == groups[1..][j - 1];
        assert r[j] == rest[j - 1];
      }
    }
  }

  /** The `typography` part of `transformTokens`: the two font families'
      `$value`s, then the four typography scales. */
  function TransformTypography(tokens: JValue): (r: Result<Typography, Exception>)
    ensures r.Success? ==>
      && Defined(Read(tokens, ["typography", "fontFamily", "sans"]))
      && Get(Read(tokens, ["typography", "fontFamily", "sans"]).value, "$value") == Success(r.value.fontFamily.sans)
      && Defined(Read(tokens, ["typography", "fontFamily", "mono"]))
      && Get(Read(tokens, ["typography", "fontFamily", "mono"]).value, "$value") == Success(r.value.fontFamily.mono)
    ensures r.Success? ==>
      && FlatScale(Read(tokens, ["typography", "fontSize"])) == Success(r.value.fontSize)
      && FlatScale(Read(tokens, ["typography", "fontWeight"])) == Success(r.value.fontWeight)
      && FlatScale(Read(tokens, ["typography", "lineHeight"])) == Success(r.value.lineHeight)
      && FlatScale(Read(tokens, ["typography", "letterSpacing"])) == Success(r.value.letterSpacing)
  {
    var sansToken :- Read(tokens, ["typography", "fontFamily", "sans"]);
    var sans :- Get(sansToken, "$value");
    var monoToken :- Read(tokens, ["typography", "fontFamily", "mono"]);
    var mono :- Get(monoToken, "$value");
    var fontSize :- FlatScale(Read(tokens, ["typography", "fontSize"]));
    var fontWeight :- FlatScale(Read(tokens, ["typography", "fontWeight"]));
    var lineHeight :- FlatScale(Read(tokens, ["typography", "lineHeight"]));
    var letterSpacing :- FlatScale(Read(tokens, ["typography", "letterSpacing"]));
    Success(Typography(FontFamily(sans, mono), fontSize, fontWeight, lineHeight, letterSpacing))
  }

  /** `transformTokens(tokens)`, reading the document in the order the object
      literal evaluates: the ten colour groups, spacing, radius, the two font
      families, the four typography scales, shadow, opacity, zIndex and
      breakpoint. The first read that finds nothing throws. */
  function TransformTokens(tokens: JValue): (r: Result<Theme, Exception>)
    ensures r.Success? ==> Keys(r.value.color) == ColorGroups
    ensures r.Success? ==> ColorPalette(tokens, ColorGroups) == Success(r.value.color)
    ensures r.Success? ==> TransformTypography(tokens) == Success(r.value.typography)
    ensures r.Success? ==>
      && FlatScale(Read(tokens, ["spacing"])) == Success(r.value.spacing)
      && FlatScale(Read(tokens, ["radius"])) == Success(r.value.radius)
      && FlatScale(Read(tokens, ["shadow"])) == Success(r.value.shadow)
      && FlatScale(Read(tokens, ["opacity"])) == Success(r.value.opacity)
      && FlatScale(Read(tokens, ["zIndex"])) == Success(r.value.zIndex)
      && FlatScale(Read(tokens, ["breakpoint"])) == Success(r.value.breakpoint)
  {
    var color :- ColorPalette(tokens, ColorGroups);
    var spacing :- FlatScale(Read(tokens, ["spacing"]));
    var radius :- FlatScale(Read(tokens, ["radius"]));
    var typography :- TransformTypography(tokens);
    var shadow :- FlatScale(Read(tokens, ["shadow"]));
    var opacity :- FlatScale(Read(tokens, ["opacity"]));
    var zIndex :- FlatScale(Read(tokens, ["zIndex"]));
    var breakpoint :- FlatScale(Read(tokens, ["breakpoint"]));
    Success(Theme(color, spacing, radius, typography, shadow, opacity, zIndex, breakpoint))
  }

  /** The configuration's `theme.extend`: every transformed category under
      its Tailwind name. Building it fails exactly when the transform does,
      with the same error; the fields are pinned down in `ExtendWiring`. */
  function Configure(tokens: JValue): (r: Result<Extend, Exception>)
    ensures r.Success? <==> TransformTokens(tokens).Success?
    ensures r.Failure? ==> r.error == TransformTokens(tokens).error
  {
    var t :- TransformTokens(tokens);
    Success(Extend(
      t.color, t.spacing, t.radius, t.typography.fontFamily,
      t.typography.fontSize, t.typography.fontWeight,
      t.typography.lineHeight, t.typography.letterSpacing,
      t.shadow, t.opacity, t.zIndex, t.breakpoint))
  }

  /** Every colour group the transform reads must be present: when the build
      succeeds, each of the ten groups exists and is not null. A document
      missing one makes the build throw instead of defaulting. */
  lemma RequiredColorGroups(tokens: JValue)
    ensures TransformTokens(tokens).Success? ==>
      forall j :: 0 <= j < |ColorGroups| ==> Defined(Read(tokens, ["color", ColorGroups[j]]))
  {
    if TransformTokens(tokens).Success? {
      var color := TransformTokens(tokens).value.color;
      assert ColorPalette(tokens, ColorGroups) == Success(color);
      ColorPaletteEntries(tokens, ColorGroups);
      forall j | 0 <= j < |ColorGroups|
        ensures Defined(Read(tokens, ["color", ColorGroups[j]]))
      {
        GroupPaletteRead(tokens, ColorGroups[j]);
      }
    }
  }

  /** Every other category the transform reads must be present: when the
      build succeeds, each flat scale's group and both font families exist
      and are not null. A document missing any of them makes the build throw
      instead of defaulting. */
  lemma RequiredCategories(tokens: JValue)
    ensures TransformTokens(tokens).Success? ==>
      && Defined(Read(tokens, ["spacing"])) && Defined(Read(tokens, ["radius"]))
      && Defined(Read(tokens, ["typography", "fontFamily", "sans"]))
      && Defined(Read(tokens, ["typography", "fontFamily", "mono"]))
      && Defined(Read(tokens, ["typography", "fontSize"]))
      && Defined(Read(tokens, ["typography", "fontWeight"]))
      && Defined(Read(tokens, ["typography", "lineHeight"]))
      && Defined(Read(tokens, ["typography", "letterSpacing"]))
      && Defined(Read(tokens, ["shadow"])) && Defined(Read(tokens, ["opacity"]))
      && Defined(Read(tokens, ["zIndex"])) && Defined(Read(tokens, ["breakpoint"]))
  {
  }

  /** `theme.extend` publishes each transformed category unchanged under its
      Tailwind name: `borderRadius` is the radius scale, `boxShadow` the
      shadow scale, `screens` the breakpoint scale, and so on; each scale has
      exactly the keys of its token group, mapped to their `$value`s, the
      colours exactly the ten groups, and the font families the `$value`s of
      `sans` and `mono`. */
  lemma ExtendWiring(tokens: JValue)
    ensures Configure(tokens).Success? ==>
      var e := Configure(tokens).value;
      && Keys(e.colors) == ColorGroups
      && ScaleFrom(e.spacing, Read(tokens, ["spacing"]))
      && ScaleFrom(e.borderRadius, Read(tokens, ["radius"]))
      && Get(Read(tokens, ["typography", "fontFamily", "sans"]).value, "$value") == Success(e.fontFamily.sans)
      && Get(Read(tokens, ["typography", "fontFamily", "mono"]).value, "$value") == Success(e.fontFamily.mono)
      && ScaleFrom(e.fontSize, Read(tokens, ["typography", "fontSize"]))
      && ScaleFrom(e.fontWeight, Read(tokens, ["typography", "fontWeight"]))
      && ScaleFrom(e.lineHeight, Read(tokens, ["typography", "lineHeight"]))
      && ScaleFrom(e.letterSpacing, Read(tokens, ["typography", "letterSpacing"]))
      && ScaleFrom(e.boxShadow, Read(tokens, ["shadow"]))
      && ScaleFrom(e.opacity, Read(tokens, ["opacity"]))
      && ScaleFrom(e.zIndex, Read(tokens, ["zIndex"]))
      && ScaleFrom(e.screens, Read(tokens, ["breakpoint"]))
  {
  }

  /** The colours in `theme.extend` are, group by group, `transformColor` of
      the document's colour group of the same name; other colour groups of the
      document do not appear. */
  lemma ExtendColors(tokens: JValue)
    ensures Configure(tokens).Success? ==>
      var e := Configure(tokens).value;
      && |e.colors| == |ColorGroups|
      && (forall j :: 0 <= j < |ColorGroups| ==>
           && e.colors[j].0 == ColorGroups[j]
           && Defined(Read(tokens, ["color", ColorGroups[j]]))
           && TransformColor(Read(tokens, ["color", ColorGroups[j]]).value.value) == Success(e.colors[j].1))
      && forall g :: g !in ColorGroups ==> g !in Keys(e.colors)
  {
    if Configure(tokens).Success? {
      var e := Configure(tokens).value;
      assert Keys(e.colors) == ColorGroups;
      ColorPaletteEntries(tokens, ColorGroups);
      forall j | 0 <= j < |ColorGroups|
        ensures e.colors[j].0 == ColorGroups[j]
        ensures Defined(Read(tokens, ["color", ColorGroups[j]]))
        ensures TransformColor(Read(tokens, ["color", ColorGroups[j]]).value.value) == Success(e.colors[j].1)
      {
        assert Keys(e.colors)[j] == e.colors[j].0;
        assert GroupPalette(tokens, ColorGroups[j]) == Success(e.colors[j].1);
        GroupPaletteRead(tokens, ColorGroups[j]);
      }
    }
  }
}
