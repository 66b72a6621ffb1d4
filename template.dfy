/** The template renderer: `getByPath` resolves a dotted path such as `a.b[0]` against a
    context, and `renderTemplate` replaces every `{{ path }}` placeholder by the resolved text.
    Every failure along a path degrades to the empty string, so rendering never fails. */
module Template {
  import opened Wrappers
  import opened Text
  import opened JsValue

  predicate IsWordChar(c: char) {
    ('A' <= c <= 'Z') || ('a' <= c <= 'z') || ('0' <= c <= '9') || c == '_'
  }

  predicate IsWord(s: string) {
    s != [] && forall k :: 0 <= k < |s| ==> IsWordChar(s[k])
  }

  predicate IsDigits(s: string) {
    s != [] && forall k :: 0 <= k < |s| ==> IsDigit(s[k])
  }

  /** The path segment `key` or `key[index]`. */
  datatype Segment = Segment(key: string, index: Option<nat>)

  /** Length of the longest prefix of `s` made of word characters. */
  function WordPrefix(s: string): (n: nat)
    ensures n <= |s|
    ensures forall k :: 0 <= k < n ==> IsWordChar(s[k])
    ensures n < |s| ==> !IsWordChar(s[n])
  {
    if s == [] || !IsWordChar(s[0]) then 0 else 1 + WordPrefix(s[1..])
  }

  /** The shape `^([A-Za-z0-9_]+)(\[(\d+)\])?$` that every path segment must have. */
  predicate SegmentShape(part: string) {
    IsWord(part) ||
    exists n :: 0 < n < |part| && IsWord(part[..n]) && part[n] == '[' && IsBracketed(part[n..])
  }

  /** `[digits]`. */
  predicate IsBracketed(s: string) {
    |s| >= 3 && s[0] == '[' && s[|s| - 1] == ']' && IsDigits(s[1..|s| - 1])
  }

  /** The number written between the brackets. */
  function BracketValue(s: string): nat
    requires IsBracketed(s)
  {
    DigitsValue(s[1..|s| - 1])
  }

  /** Matching one path segment against the segment pattern. */
  function ParseSegment(part: string): (r: Option<Segment>)
    ensures r.None? <==> !SegmentShape(part)
    ensures r.Some? && r.value.index.None? ==> IsWord(part) && r.value.key == part
    ensures r.Some? && r.value.index.Some? ==>
              var n := |r.value.key|;
              n < |part| && part[..n] == r.value.key && IsWord(r.value.key) &&
              IsBracketed(part[n..]) && r.value.index.value == BracketValue(part[n..])
  {
    var n := WordPrefix(part);
    var rest := part[n..];
    if n == 0 then
      assert !IsWord(part);
      assert forall m :: 0 < m < |part| ==> !IsWord(part[..m]) by {
        forall m | 0 < m < |part| ensures !IsWord(part[..m]) { assert part[..m][0] == part[0]; }
      }
      None
    else if rest == [] then
      assert part[..n] == part;
      Some(Segment(part, None))
    else if IsBracketed(rest) then
      assert IsWord(part[..n]);
      Some(Segment(part[..n], Some(BracketValue(rest))))
    else
      assert !IsWord(part);
      assert forall m :: 0 < m < |part| && IsWord(part[..m]) && part[m] == '[' ==> m == n;
      None
  }

  /** `path.split(".").filter(Boolean)`. */
  function Parts(path: string): (r: seq<string>)
    ensures forall k :: 0 <= k < |r| ==> r[k] != [] && '.' !in r[k]
  {
    NonEmpty(SplitDots(path))
  }

  /** One step of the walk: read `seg.key`, then, when the segment has an index, take that
      element if the value read is an array and the empty string otherwise. */
  function Step(cur: JValue, seg: Segment): (r: JValue)
    requires !IsNullish(cur)
    ensures seg.index.None? ==> r == Get(cur, seg.key)
    ensures seg.index.Some? && !Get(cur, seg.key).JArr? ==> r == JStr("")
    ensures seg.index.Some? && Get(cur, seg.key).JArr? ==>
              r == ElementAt(Get(cur, seg.key).items, seg.index.value)
  {
    var v := Get(cur, seg.key);
    match seg.index
    case None => v
    case Some(i) => if v.JArr? then ElementAt(v.items, i) else JStr("")
  }

  /** The value a list of segments leads to, or None when the walk stopped at a `null` or
      `undefined` value with segments left, or at a segment of the wrong shape. */
  function Resolve(cur: JValue, parts: seq<string>): Option<JValue>
    decreases |parts|
  {
    if parts == [] then Some(cur)
    else if IsNullish(cur) then None
    else match ParseSegment(parts[0])
      case None => None
      case Some(seg) => Resolve(Step(cur, seg), parts[1..])
  }

  /** What `getByPath(obj, path)` returns. */
  function GetByPathSpec(obj: JValue, path: string): string {
    match Resolve(obj, Parts(path))
    case None => ""
    case Some(v) => if IsNullish(v) then "" else ToStr(v)
  }

  /** `getByPath`, walking the segments with a cursor as the source does. */
  method GetByPath(obj: JValue, path: string) returns (r: string)
    ensures r == GetByPathSpec(obj, path)
  {
    var parts := Parts(path);
    var cur := obj;
    for i := 0 to |parts|
      invariant Resolve(obj, parts) == Resolve(cur, parts[i..])
    {
      assert parts[i..][0] == parts[i] && parts[i..][1..] == parts[i + 1..];
      if IsNullish(cur) {
        assert Resolve(obj, parts) == None;
        return "";
      }
      var m := ParseSegment(parts[i]);
      if m.None? {
        assert Resolve(obj, parts) == None;
        return "";
      }
      var seg := m.value;
      ResolveFirst(cur, parts[i..], seg);
      ghost var prev := cur;
      cur := Get(cur, seg.key);
      if seg.index.Some? {
        cur := if cur.JArr? then ElementAt(cur.items, seg.index.value) else JStr("");
      }
      assert cur == Step(prev, seg);
    }
    assert parts[|parts|..] == [];
    ResolvedValue(obj, path, cur);
    if IsNullish(cur) {
      return "";
    }
    r := ToStr(cur);
  }

  /** Walking a path in two pieces is walking the first piece and then the second. */
  lemma {:induction false} ResolveAppend(cur: JValue, a: seq<string>, b: seq<string>)
    ensures Resolve(cur, a + b) ==
              match Resolve(cur, a) case None => None case Some(v) => Resolve(v, b)
    decreases |a|
  {
    if a == [] {
      assert a + b == b;
    } else {
      assert (a + b)[0] == a[0] && (a + b)[1..] == a[1..] + b;
      if IsNullish(cur) {
        assert Resolve(cur, a) == None;
        assert Resolve(cur, a + b) == None;
      } else if ParseSegment(a[0]).None? {
        assert Resolve(cur, a) == None;
        assert Resolve(cur, a + b) == None;
      } else {
        var next := Step(cur, ParseSegment(a[0]).value);
        ResolveAppend(next, a[1..], b);
        assert Resolve(cur, a) == Resolve(next, a[1..]);
        assert Resolve(cur, a + b) == Resolve(next, a[1..] + b);
      }
    }
  }

  /** Walking a path is walking its first `k` segments and then the others. */
  lemma ResolveSplit(cur: JValue, parts: seq<string>, k: nat)
    requires k <= |parts|
    ensures Resolve(cur, parts) ==
              match Resolve(cur, parts[..k]) case None => None case Some(v) => Resolve(v, parts[k..])
  {
    assert parts == parts[..k] + parts[k..];
    ResolveAppend(cur, parts[..k], parts[k..]);
  }

  /** A `null` or `undefined` value reached before the last segment gives "". */
  lemma NullIntermediate(obj: JValue, path: string, k: nat, v: JValue)
    requires k < |Parts(path)|
    requires Resolve(obj, Parts(path)[..k]) == Some(v) && IsNullish(v)
    ensures GetByPathSpec(obj, path) == ""
  {
    var parts := Parts(path);
    ResolveSplit(obj, parts, k);
    assert Resolve(v, parts[k..]) == None;
  }

  /** A segment that does not match `^[A-Za-z0-9_]+(\[\d+\])?$` gives "". */
  lemma MalformedSegment(obj: JValue, path: string, k: nat)
    requires k < |Parts(path)| && !SegmentShape(Parts(path)[k])
    ensures GetByPathSpec(obj, path) == ""
  {
    var parts := Parts(path);
    ResolveSplit(obj, parts, k);
    assert parts[k..][0] == parts[k];
    assert ParseSegment(parts[k]).None?;
    match Resolve(obj, parts[..k])
    case None =>
    case Some(v) => assert Resolve(v, parts[k..]) == None;
  }

  /** An index applied, in the last segment, to something that is not an array gives "". */
  lemma IndexOnNonArray(obj: JValue, path: string, v: JValue, seg: Segment)
    requires |Parts(path)| > 0
    requires Resolve(obj, Parts(path)[..|Parts(path)| - 1]) == Some(v) && !IsNullish(v)
    requires ParseSegment(Parts(path)[|Parts(path)| - 1]) == Some(seg)
    requires seg.index.Some? && !Get(v, seg.key).JArr?
    ensures GetByPathSpec(obj, path) == ""
  {
    var parts := Parts(path);
    var n := |parts| - 1;
    ResolveSplit(obj, parts, n);
    assert parts[n..][0] == parts[n] && parts[n..][1..] == [];
    ResolveFirst(v, parts[n..], seg);
    assert Step(v, seg) == JStr("");
  }

  /** An index applied before the last segment to something that is not an array does not
      stop the walk: it goes on from the empty string. */
  lemma IndexOnNonArrayGoesOn(cur: JValue, parts: seq<string>, seg: Segment)
    requires parts != [] && !IsNullish(cur) && ParseSegment(parts[0]) == Some(seg)
    requires seg.index.Some? && !Get(cur, seg.key).JArr?
    ensures Resolve(cur, parts) == Resolve(JStr(""), parts[1..])
  {
    ResolveFirst(cur, parts, seg);
  }

  /** Otherwise the result is `String(value)` of the value the path leads to. */
  lemma ResolvedValue(obj: JValue, path: string, v: JValue)
    requires Resolve(obj, Parts(path)) == Some(v)
    ensures IsNullish(v) ==> GetByPathSpec(obj, path) == ""
    ensures !IsNullish(v) ==> GetByPathSpec(obj, path) == ToStr(v)
  {
  }

  /** A path made of object keys that are all present leads to the value stored there. */
  lemma {:induction false} ResolveKeys(obj: JValue, keys: seq<string>, v: JValue)
    requires forall k :: 0 <= k < |keys| ==> IsWord(keys[k])
    requires PathOfKeys(obj, keys) == Some(v)
    ensures Resolve(obj, keys) == Some(v)
    decreases |keys|
  {
    if keys != [] {
      var seg := ParseSegment(keys[0]);
      assert seg == Some(Segment(keys[0], None)) by {
        assert IsWord(keys[0]);
        assert SegmentShape(keys[0]);
      }
      ResolveKeys(obj.fields[keys[0]], keys[1..], v);
    }
  }

  /** Reference lookup through nested objects by field names only. */
  function PathOfKeys(obj: JValue, keys: seq<string>): Option<JValue>
    decreases |keys|
  {
    if keys == [] then Some(obj)
    else if obj.JObj? && keys[0] in obj.fields then PathOfKeys(obj.fields[keys[0]], keys[1..])
    else None
  }

  /** The placeholder at the start of `s`, which starts with "{{": the text up to the
      first '}', provided that text is not empty and the '}' is doubled; with the length of
      the whole match. This is what `/\{\{\s*([^}]+)\s*\}\}/` matches there; the white space
      it allows around the expression is removed by the `trim()` in `renderTemplate`. */
  function Placeholder(s: string): (r: Option<(string, nat)>)
    requires |s| >= 2 && s[0] == '{' && s[1] == '{'
    ensures r.Some? ==> 4 < r.value.1 <= |s| && s[r.value.1 - 2] == '}' && s[r.value.1 - 1] == '}'
    ensures r.Some? ==> r.value.0 == s[2..r.value.1 - 2] && '}' !in r.value.0
  {
    var t := s[2..];
    var j := IndexOfChar(t, '}');
    if j <= 0 then None
    else if j + 1 < |t| && t[j + 1] == '}' then
      assert t[..j] == s[2..j + 2];
      Some((s[2..j + 2], j + 4))
    else None
  }

  predicate StartsPlaceholder(s: string) {
    |s| >= 2 && s[0] == '{' && s[1] == '{' && Placeholder(s).Some?
  }

  /** `renderTemplate(str, ctx)`: scans left to right; each placeholder is replaced by
      `getByPath(ctx, expr.trim())` and scanning resumes after it. */
  function Render(s: string, ctx: JValue): string
    decreases |s|
  {
    if s == [] then []
    else if StartsPlaceholder(s) then
      var (expr, n) := Placeholder(s).value;
      GetByPathSpec(ctx, Trim(expr)) + Render(s[n..], ctx)
    else [s[0]] + Render(s[1..], ctx)
  }

  /** Text without any "{{" is left as it is. */
  lemma {:induction false} RenderPlain(s: string, ctx: JValue)
    requires forall k :: 0 <= k < |s| - 1 ==> !(s[k] == '{' && s[k + 1] == '{')
    ensures Render(s, ctx) == s
    decreases |s|
  {
    if s != [] {
      assert !StartsPlaceholder(s) by {
        if |s| >= 2 { assert !(s[0] == '{' && s[1] == '{'); }
      }
      RenderPlain(s[1..], ctx);
      assert s == [s[0]] + s[1..];
    }
  }

  /** A literal prefix without '{' is copied, and the rest is rendered independently. */
  lemma {:induction false} RenderLiteralPrefix(a: string, b: string, ctx: JValue)
    requires '{' !in a
    ensures Render(a + b, ctx) == a + Render(b, ctx)
    decreases |a|
  {
    if a == [] {
      assert a + b == b;
    } else {
      RenderLiteralPrefix(a[1..], b, ctx);
      RenderLiteralCons(a, b, ctx);
    }
  }

  /** One literal character in front of a prefix that is already copied through. */
  lemma RenderLiteralCons(a: string, b: string, ctx: JValue)
    requires a != [] && a[0] != '{'
    requires Render(a[1..] + b, ctx) == a[1..] + Render(b, ctx)
    ensures Render(a + b, ctx) == a + Render(b, ctx)
  {
    ConsSplit(a, b, Render(b, ctx));
    RenderLiteralStep(a + b, ctx);
  }

  /** How a concatenation splits after its first character. */
  lemma ConsSplit(a: string, b: string, r: string)
    requires a != []
    ensures (a + b)[0] == a[0] && (a + b)[1..] == a[1..] + b
    ensures [a[0]] + (a[1..] + r) == a + r
  {
    assert [a[0]] + a[1..] == a;
  }

  /** A text starting with anything but '{' keeps its first character. */
  lemma RenderLiteralStep(s: string, ctx: JValue)
    requires s != [] && s[0] != '{'
    ensures Render(s, ctx) == [s[0]] + Render(s[1..], ctx)
  {
  }

  /** The placeholder recognised at the start of "{{expr}}rest". */
  lemma PlaceholderAt(expr: string, rest: string)
    requires expr != [] && '}' !in expr
    ensures var s := "{{" + expr + "}}" + rest;
            StartsPlaceholder(s) && Placeholder(s) == Some((expr, |expr| + 4)) &&
            s[|expr| + 4..] == rest
  {
    var s := "{{" + expr + "}}" + rest;
    var t := s[2..];
    assert t == expr + "}}" + rest;
    assert t[..|expr|] == expr;
    IndexOfCharFirst(t, '}', |expr|);
    assert s[2..2 + |expr|] == expr;
  }

  /** A placeholder `{{expr}}` is replaced by `getByPath(ctx, expr.trim())`. */
  lemma RenderPlaceholder(expr: string, rest: string, ctx: JValue)
    requires expr != [] && '}' !in expr
    ensures Render("{{" + expr + "}}" + rest, ctx) == GetByPathSpec(ctx, Trim(expr)) + Render(rest, ctx)
  {
    PlaceholderAt(expr, rest);
  }

  /** A word has no white space to trim, no dot to split at, and is a plain key segment. */
  lemma WordFacts(w: string)
    requires IsWord(w)
    ensures Trim(w) == w && Parts(w) == [w] && ParseSegment(w) == Some(Segment(w, None))
  {
    WordTrim(w);
    NoDotParts(w);
    WordPrefixAll(w);
  }

  lemma WordTrim(w: string)
    requires IsWord(w)
    ensures Trim(w) == w
  {
    assert !IsSpace(w[0]) && !IsSpace(w[|w| - 1]);
  }

  /** A path without a dot is a single segment. */
  lemma NoDotParts(s: string)
    requires s != [] && forall k :: 0 <= k < |s| ==> s[k] != '.'
    ensures Parts(s) == [s]
  {
    assert '.' !in s;
    assert SplitDots(s) == [s];
  }

  lemma {:induction false} WordPrefixAll(w: string)
    requires forall k :: 0 <= k < |w| ==> IsWordChar(w[k])
    ensures WordPrefix(w) == |w|
  {
    if w != [] {
      assert IsWordChar(w[0]);
      WordPrefixAll(w[1..]);
    }
  }

  /** The word prefix of a word followed by a non-word character is that word. */
  lemma {:induction false} WordPrefixThen(w: string, rest: string)
    requires forall k :: 0 <= k < |w| ==> IsWordChar(w[k])
    requires rest != [] && !IsWordChar(rest[0])
    ensures WordPrefix(w + rest) == |w|
    decreases |w|
  {
    if w == [] {
      assert w + rest == rest;
    } else {
      assert (w + rest)[0] == w[0] && (w + rest)[1..] == w[1..] + rest;
      WordPrefixThen(w[1..], rest);
    }
  }

  /** The walk reads the first segment and goes on with the rest. */
  lemma ResolveFirst(cur: JValue, parts: seq<string>, seg: Segment)
    requires parts != [] && !IsNullish(cur) && ParseSegment(parts[0]) == Some(seg)
    ensures Resolve(cur, parts) == Resolve(Step(cur, seg), parts[1..])
  {
  }

  /** `getByPath(obj, key)` for a key the object does not have is "". */
  lemma MissingKey(fields: map<string, JValue>, w: string)
    requires IsWord(w) && w !in fields
    ensures GetByPathSpec(JObj(fields), w) == ""
  {
    WordFacts(w);
    ResolveFirst(JObj(fields), [w], Segment(w, None));
    assert [w][1..] == [];
  }

  /** `{{key}}` for a key the context does not have renders as nothing. */
  lemma RenderMissingKey(fields: map<string, JValue>, w: string, rest: string)
    requires IsWord(w) && w !in fields
    ensures Render("{{" + w + "}}" + rest, JObj(fields)) == Render(rest, JObj(fields))
  {
    assert '}' !in w by {
      forall k | 0 <= k < |w| ensures w[k] != '}' { assert IsWordChar(w[k]); }
    }
    WordTrim(w);
    RenderPlaceholder(w, rest, JObj(fields));
    MissingKey(fields, w);
  }

  /** `getByPath(obj, key)` for a key holding a string is that string. */
  lemma StringKey(fields: map<string, JValue>, w: string)
    requires IsWord(w) && w in fields && fields[w].JStr?
    ensures GetByPathSpec(JObj(fields), w) == fields[w].s
  {
    ResolveWordKey(fields, w);
    ResolvedValue(JObj(fields), w, fields[w]);
  }

  /** A plain key the object has leads to the value stored under it. */
  lemma ResolveWordKey(fields: map<string, JValue>, w: string)
    requires IsWord(w) && w in fields
    ensures Resolve(JObj(fields), Parts(w)) == Some(fields[w])
  {
    WordFacts(w);
    ResolveOneKey(JObj(fields), w);
  }

  /** A path that is one plain key reads that key. */
  lemma ResolveOneKey(cur: JValue, w: string)
    requires IsWord(w) && !IsNullish(cur)
    ensures Resolve(cur, [w]) == Some(Get(cur, w))
  {
    var seg := Segment(w, None);
    WordPrefixAll(w);
    assert ParseSegment(w) == Some(seg);
    ResolveFirst(cur, [w], seg);
    assert [w][1..] == [];
    assert Resolve(Step(cur, seg), []) == Some(Get(cur, w));
  }

  /** `{{key}}` for a key holding a string renders as that string. */
  lemma RenderStringKey(fields: map<string, JValue>, w: string, rest: string)
    requires IsWord(w) && w in fields && fields[w].JStr?
    ensures Render("{{" + w + "}}" + rest, JObj(fields)) == fields[w].s + Render(rest, JObj(fields))
  {
    assert '}' !in w by {
      forall k | 0 <= k < |w| ensures w[k] != '}' { assert IsWordChar(w[k]); }
    }
    WordTrim(w);
    RenderPlaceholder(w, rest, JObj(fields));
    StringKey(fields, w);
  }

  /** The placeholder `{{key}}`. */
  function Slot(w: string): string {
    "{{" + w + "}}"
  }

  /** Literal text followed by `{{key}}`, for a key holding a string. */
  lemma RenderKeyAfter(fields: map<string, JValue>, pre: string, w: string, rest: string)
    requires '{' !in pre && IsWord(w) && w in fields && fields[w].JStr?
    ensures Render(pre + Slot(w) + rest, JObj(fields)) == pre + fields[w].s + Render(rest, JObj(fields))
  {
    assert pre + Slot(w) + rest == pre + ("{{" + w + "}}" + rest);
    RenderLiteralPrefix(pre, "{{" + w + "}}" + rest, JObj(fields));
    RenderStringKey(fields, w, rest);
  }

  /** A template that is one placeholder renders as the string its key holds. */
  lemma RenderOneSlot(fields: map<string, JValue>, tpl: string, w: string)
    requires tpl == Slot(w) && IsWord(w) && w in fields && fields[w].JStr?
    ensures Render(tpl, JObj(fields)) == fields[w].s
  {
    assert tpl == "" + Slot(w) + "";
    RenderKeyAfter(fields, "", w, "");
  }

  /** Literal text and two placeholders, for keys holding strings. */
  lemma RenderTwoSlots(fields: map<string, JValue>, tpl: string, pre: string, k1: string, mid: string, k2: string)
    requires tpl == pre + Slot(k1) + mid + Slot(k2)
    requires '{' !in pre && '{' !in mid
    requires IsWord(k1) && k1 in fields && fields[k1].JStr?
    requires IsWord(k2) && k2 in fields && fields[k2].JStr?
    ensures Render(tpl, JObj(fields)) == pre + fields[k1].s + mid + fields[k2].s
  {
    var tail := mid + Slot(k2) + "";
    assert tpl == pre + Slot(k1) + tail;
    RenderKeyAfter(fields, mid, k2, "");
    RenderKeyAfter(fields, pre, k1, tail);
  }

  /** Literal text and three placeholders, for keys holding strings. */
  lemma RenderThreeSlots(fields: map<string, JValue>, tpl: string, pre: string, k1: string, m1: string,
                         k2: string, m2: string, k3: string)
    requires tpl == pre + Slot(k1) + m1 + Slot(k2) + m2 + Slot(k3)
    requires '{' !in pre && '{' !in m1 && '{' !in m2
    requires IsWord(k1) && k1 in fields && fields[k1].JStr?
    requires IsWord(k2) && k2 in fields && fields[k2].JStr?
    requires IsWord(k3) && k3 in fields && fields[k3].JStr?
    ensures Render(tpl, JObj(fields)) == pre + fields[k1].s + m1 + fields[k2].s + m2 + fields[k3].s
  {
    var tail := m1 + Slot(k2) + m2 + Slot(k3);
    assert tpl == pre + Slot(k1) + tail;
    RenderKeyAfter(fields, pre, k1, tail);
    RenderTwoSlots(fields, tail, m1, k2, m2, k3);
  }

  /** `key[digits]` parses into the key and the number the digits spell. */
  lemma IndexedSegment(w: string, d: string)
    requires IsWord(w) && IsDigits(d)
    ensures ParseSegment(w + "[" + d + "]") == Some(Segment(w, Some(DigitsValue(d))))
  {
    var rest := "[" + d + "]";
    var part := w + rest;
    assert part == w + "[" + d + "]";
    WordPrefixThen(w, rest);
    assert part[..|w|] == w && part[|w|..] == rest;
    assert rest[1..|rest| - 1] == d;
    assert IsBracketed(rest);
  }

  /** `key[digits]` has no dot in it. */
  lemma IndexedNoDot(w: string, d: string)
    requires IsWord(w) && IsDigits(d)
    ensures forall k :: 0 <= k < |w + "[" + d + "]"| ==> (w + "[" + d + "]")[k] != '.'
  {
    var part := w + "[" + d + "]";
    forall k | 0 <= k < |part| ensures part[k] != '.' {
      if k < |w| { assert part[k] == w[k] && IsWordChar(w[k]); }
      else if k == |w| || k == |part| - 1 { }
      else { assert part[k] == d[k - |w| - 1] && IsDigit(d[k - |w| - 1]); }
    }
  }

  /** A path of two nonempty dot-free pieces has those two segments. */
  lemma PartsTwo(a: string, b: string)
    requires a != [] && b != [] && '.' !in a && '.' !in b
    ensures Parts(a + "." + b) == [a, b]
  {
    SplitTwo(a, b);
    var xs := [a, b];
    assert xs[1..] == [b] && [b][1..] == [];
    assert NonEmpty([b]) == [b] + NonEmpty([]);
    assert NonEmpty(xs) == [a] + NonEmpty([b]);
  }

  /** `key[digits].length` splits into two segments. */
  lemma IndexedLengthParts(w: string, d: string)
    requires IsWord(w) && IsDigits(d)
    ensures Parts(w + "[" + d + "].length") == [w + "[" + d + "]", "length"]
  {
    var part, len := w + "[" + d + "]", "length";
    assert w + "[" + d + "].length" == part + "." + len;
    IndexedNoDot(w, d);
    assert '.' !in part;
    PartsTwo(part, len);
  }

  /** The empty string has length 0. */
  lemma LengthOfEmpty()
    ensures Resolve(JStr(""), ["length"]) == Some(JNum(0))
  {
    WordPrefixAll("length");
    ResolveFirst(JStr(""), ["length"], Segment("length", None));
    assert ["length"][1..] == [];
  }

  /** The walk of `key[i].length` on a key that holds no array ends at the number 0. */
  lemma ResolveLengthAfterNonArray(fields: map<string, JValue>, w: string, d: string)
    requires IsWord(w) && IsDigits(d) && !(w in fields && fields[w].JArr?)
    ensures Resolve(JObj(fields), Parts(w + "[" + d + "].length")) == Some(JNum(0))
  {
    var parts := [w + "[" + d + "]", "length"];
    IndexedLengthParts(w, d);
    IndexedSegment(w, d);
    IndexOnNonArrayGoesOn(JObj(fields), parts, Segment(w, Some(DigitsValue(d))));
    assert parts[1..] == ["length"];
    LengthOfEmpty();
  }

  /** So `key[i].length` on a key that holds no array gives "0", the length of "". */
  lemma LengthAfterNonArrayIndex(fields: map<string, JValue>, w: string, d: string)
    requires IsWord(w) && IsDigits(d) && !(w in fields && fields[w].JArr?)
    ensures GetByPathSpec(JObj(fields), w + "[" + d + "].length") == "0"
  {
    ResolveLengthAfterNonArray(fields, w, d);
    ResolvedValue(JObj(fields), w + "[" + d + "].length", JNum(0));
    assert IntToString(0) == "0";
  }

  /** `getByPath(obj, "key[i]")` for an array stored at `key` is element `i` as text, or ""
      when there is no such element or it is `null` or `undefined`. */
  lemma KeyIndex(fields: map<string, JValue>, w: string, d: string)
    requires IsWord(w) && IsDigits(d) && w in fields && fields[w].JArr?
    ensures var v := ElementAt(fields[w].items, DigitsValue(d));
            GetByPathSpec(JObj(fields), w + "[" + d + "]") == if IsNullish(v) then "" else ToStr(v)
  {
    var part := w + "[" + d + "]";
    IndexedNoDot(w, d);
    NoDotParts(part);
    IndexedSegment(w, d);
    var seg := Segment(w, Some(DigitsValue(d)));
    ResolveFirst(JObj(fields), [part], seg);
    assert [part][1..] == [];
    assert Step(JObj(fields), seg) == ElementAt(fields[w].items, DigitsValue(d));
  }

  /** `renderTemplateArray(arr, ctx)`: a missing list renders as the empty list. */
  function RenderAll(arr: Option<seq<string>>, ctx: JValue): (r: seq<string>)
    ensures arr.None? ==> r == []
    ensures arr.Some? ==> |r| == |arr.value|
    ensures arr.Some? ==> forall i :: 0 <= i < |r| ==> r[i] == Render(arr.value[i], ctx)
  {
    match arr
    case None => []
    case Some(xs) => RenderEach(xs, ctx)
  }

  function RenderEach(xs: seq<string>, ctx: JValue): (r: seq<string>)
    ensures |r| == |xs|
    ensures forall i :: 0 <= i < |r| ==> r[i] == Render(xs[i], ctx)
  {
    if xs == [] then [] else [Render(xs[0], ctx)] + RenderEach(xs[1..], ctx)
  }
}
