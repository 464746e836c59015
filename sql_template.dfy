/** SQL snippets as the placeholder pattern of DynamicSqlQuery sees them: literal text
    and `{n}` placeholders. Renumbering, formatting and IN-list expansion are defined
    on tokens; `Render` gives the text a token sequence stands for. */
module SqlTemplate {

  /** One piece of a snippet: literal text, or a `{index}` placeholder. */
  datatype Token = Lit(text: string) | Ph(index: nat)

  type Snippet = seq<Token>

  /** The decimal digits of `n`, as `int.ToString()` writes a non-negative number. */
  function DecimalString(n: nat): (s: string)
    ensures 0 < |s|
    ensures forall i :: 0 <= i < |s| ==> '0' <= s[i] <= '9'
    decreases n
  {
    if n < 10 then ["0123456789"[n]] else DecimalString(n / 10) + ["0123456789"[n % 10]]
  }

  function RenderToken(t: Token): string {
    match t
    case Lit(s) => s
    case Ph(n) => "{" + DecimalString(n) + "}"
  }

  /** The text a snippet stands for. */
  function Render(s: Snippet): string
    decreases |s|
  {
    if s == [] then "" else Render(s[..|s| - 1]) + RenderToken(s[|s| - 1])
  }

  /** Appending one token appends its text. */
  lemma RenderSnoc(s: Snippet, t: Token)
    ensures Render(s + [t]) == Render(s) + RenderToken(t)
  {
    assert (s + [t])[..|s|] == s;
  }

  /** Concatenation is associative. Kept apart from the Render proofs, where the
      solver would otherwise unfold Render inside the element-wise comparison. */
  lemma ConcatAssociates<T>(x: seq<T>, y: seq<T>, z: seq<T>)
    ensures (x + y) + z == x + (y + z)
  {
  }

  /** Rendering distributes over concatenation, so appending fragments appends text. */
  lemma {:induction false} RenderConcat(a: Snippet, b: Snippet)
    ensures Render(a + b) == Render(a) + Render(b)
    decreases |b|
  {
    if b == [] {
      assert a + b == a;
    } else {
      var b', last := b[..|b| - 1], b[|b| - 1];
      assert a + b == (a + b') + [last];
      assert b == b' + [last];
      RenderSnoc(a + b', last);
      RenderSnoc(b', last);
      RenderConcat(a, b');
      ConcatAssociates(Render(a), Render(b'), RenderToken(last));
    }
  }

  /** A snippet renders to the empty string exactly when it holds only empty literals. */
  lemma {:induction false} RenderEmpty(s: Snippet)
    ensures Render(s) == "" <==> forall t :: t in s ==> t == Lit("")
    decreases |s|
  {
    if s != [] {
      var init, last := s[..|s| - 1], s[|s| - 1];
      RenderEmpty(init);
      assert s == init + [last];
      assert Render(s) == Render(init) + RenderToken(last);
      if Render(s) == "" {
        assert Render(init) == "" && RenderToken(last) == "";
        assert last == Lit("");
        forall t | t in s ensures t == Lit("") {
          assert t in init || t == last;
        }
      } else {
        if Render(init) == "" {
          assert RenderToken(last) != "";
          assert last != Lit("") && last in s;
        } else {
          var t :| t in init && t != Lit("");
          assert t in s;
        }
      }
    }
  }

  /** No literal text holds a `{`, so every `{` of the rendered text opens a
      placeholder and the tokens are what the placeholder pattern would find. */
  predicate Plain(s: Snippet) {
    forall t :: t in s && t.Lit? ==> '{' !in t.text
  }

  lemma PlainConcat(a: Snippet, b: Snippet)
    ensures Plain(a + b) <==> Plain(a) && Plain(b)
  {
    assert forall t :: t in a + b <==> t in a || t in b;
  }

  /** In a plain snippet the `{` characters of the text are exactly its placeholders. */
  lemma {:induction false} BracesArePlaceholders(s: Snippet)
    requires Plain(s)
    ensures multiset(Render(s))['{'] == PlaceholderCount(s)
    decreases |s|
  {
    if s != [] {
      var init, last := s[..|s| - 1], s[|s| - 1];
      assert s == init + [last];
      PlainConcat(init, [last]);
      BracesArePlaceholders(init);
      RenderSnoc(init, last);
      if last.Ph? {
        var digits := DecimalString(last.index);
        assert '{' !in digits;
        assert RenderToken(last) == ['{'] + digits + ['}'];
      } else {
        assert last in s;
      }
    }
  }

  /** The placeholder indices a snippet mentions. */
  function Indices(s: Snippet): set<nat> {
    set t | t in s && t.Ph? :: t.index
  }

  lemma IndicesConcat(a: Snippet, b: Snippet)
    ensures Indices(a + b) == Indices(a) + Indices(b)
  {
    assert forall t :: t in a + b <==> t in a || t in b;
  }

  /** The number of placeholders in a snippet: the number of pattern matches. */
  function PlaceholderCount(s: Snippet): nat
    decreases |s|
  {
    if s == [] then 0
    else PlaceholderCount(s[..|s| - 1]) + (if s[|s| - 1].Ph? then 1 else 0)
  }

  /** One more than the largest placeholder index, or 0 without placeholders. */
  function Bound(s: Snippet): (b: nat)
    ensures forall k :: k in Indices(s) ==> k < b
    ensures b > 0 ==> b - 1 in Indices(s)
    decreases |s|
  {
    if s == [] then 0
    else
      var init, last := s[..|s| - 1], s[|s| - 1];
      assert s == init + [last];
      IndicesConcat(init, [last]);
      var rest := Bound(init);
      if last.Ph? && rest <= last.index then last.index + 1 else rest
  }

  /** A snippet has a placeholder exactly when it mentions an index. */
  lemma {:induction false} CountZeroIffNoIndices(s: Snippet)
    ensures PlaceholderCount(s) == 0 <==> Indices(s) == {}
    decreases |s|
  {
    if s != [] {
      var init, last := s[..|s| - 1], s[|s| - 1];
      assert s == init + [last];
      IndicesConcat(init, [last]);
      CountZeroIffNoIndices(init);
      if last.Ph? {
        assert last.index in Indices(s);
      }
    }
  }

  /** Appending literal text changes no placeholder. */
  lemma LiteralSuffix(s: Snippet, text: string)
    ensures PlaceholderCount(s + [Lit(text)]) == PlaceholderCount(s)
    ensures Indices(s + [Lit(text)]) == Indices(s)
    ensures Bound(s + [Lit(text)]) == Bound(s)
  {
    assert (s + [Lit(text)])[..|s|] == s;
    IndicesConcat(s, [Lit(text)]);
  }

  /** The indices used are exactly 0 .. Bound(s) - 1 (repeats allowed). */
  predicate Dense(s: Snippet) {
    forall k: nat :: k < Bound(s) ==> k in Indices(s)
  }

  /** The largest value of a C# `int`: `int.Parse` raises OverflowException above it. */
  const IntMax: nat := 0x7FFF_FFFF

  /** The snippet raises none of the format errors DynamicSqlQuery leaves to .NET,
      given `n` parameter values. A snippet without placeholders is not formatted at
      all. One that is formatted holds no `}` in its literal text (a lone `}` raises
      FormatException). A lone placeholder must be `{0}`. Several placeholders must
      have indices `int.Parse` accepts and, once all are within the `n` values, must
      use every index from 0 to the largest. */
  predicate Formattable(s: Snippet, n: nat) {
    if PlaceholderCount(s) == 0 then true
    else
      && (forall t :: t in s && t.Lit? ==> '}' !in t.text)
      && if PlaceholderCount(s) == 1 then Indices(s) == {0}
         else Bound(s) <= IntMax + 1 && (Bound(s) <= n ==> Dense(s))
  }

  function ShiftToken(t: Token, offset: nat): Token {
    match t
    case Lit(_) => t
    case Ph(i) => Ph(offset + i)
  }

  /** The snippet with every placeholder `{i}` renumbered to `{offset + i}`. */
  function Shift(s: Snippet, offset: nat): Snippet {
    seq(|s|, j requires 0 <= j < |s| => ShiftToken(s[j], offset))
  }

  /** Renumbering moves every index by the offset and keeps the literal text. */
  lemma ShiftIndices(s: Snippet, offset: nat)
    ensures forall k :: k in Indices(Shift(s, offset)) <==> offset <= k && k - offset in Indices(s)
    ensures forall j :: 0 <= j < |s| && s[j].Lit? ==> Shift(s, offset)[j] == s[j]
  {
    var r := Shift(s, offset);
    forall k | k in Indices(r)
      ensures offset <= k && k - offset in Indices(s)
    {
      var t :| t in r && t.Ph? && t.index == k;
      var j :| 0 <= j < |r| && r[j] == t;
      assert s[j] in s;
    }
    forall k | offset <= k && k - offset in Indices(s)
      ensures k in Indices(r)
    {
      var t :| t in s && t.Ph? && t.index == k - offset;
      var j :| 0 <= j < |s| && s[j] == t;
      assert r[j] in r;
    }
  }

  /** Renumbering keeps the literal text, so it keeps a snippet plain. */
  lemma ShiftPlain(s: Snippet, offset: nat)
    requires Plain(s)
    ensures Plain(Shift(s, offset))
  {
    var r := Shift(s, offset);
    forall t | t in r && t.Lit?
      ensures '{' !in t.text
    {
      var j :| 0 <= j < |r| && r[j] == t;
      assert s[j] in s;
    }
  }

  /** A snippet without placeholders is not changed by renumbering. */
  lemma ShiftWithoutPlaceholders(s: Snippet, offset: nat)
    requires Indices(s) == {}
    ensures Shift(s, offset) == s
  {
    assert forall t :: t in s && t.Ph? ==> t.index in Indices(s);
    forall j | 0 <= j < |s|
      ensures Shift(s, offset)[j] == s[j]
    {
      assert s[j] in s;
    }
  }

  function SubstituteToken(t: Token, args: seq<nat>): Token
    requires t.Ph? ==> t.index < |args|
  {
    match t
    case Lit(_) => t
    case Ph(i) => Ph(args[i])
  }

  /** What `String.Format(snippet, args)` writes when every argument is itself the
      placeholder text `{args[i]}`: each `{i}` becomes `{args[i]}`. */
  function Substitute(s: Snippet, args: seq<nat>): Snippet
    requires Bound(s) <= |args|
  {
    seq(|s|, j requires 0 <= j < |s| =>
      assert s[j] in s && (s[j].Ph? ==> s[j].index in Indices(s));
      SubstituteToken(s[j], args))
  }

  /** The format arguments `{start}, {start + 1}, ...` for keys 0 .. count - 1. */
  function Offsets(start: nat, count: nat): (r: seq<nat>)
    ensures |r| == count
  {
    seq(count, j requires 0 <= j < count => start + j)
  }

  /** Formatting with consecutive offsets is renumbering. */
  lemma SubstituteOffsets(s: Snippet, start: nat, count: nat)
    requires Bound(s) <= count
    ensures Substitute(s, Offsets(start, count)) == Shift(s, start)
  {
    forall j | 0 <= j < |s|
      ensures Substitute(s, Offsets(start, count))[j] == Shift(s, start)[j]
    {
      assert s[j] in s && (s[j].Ph? ==> s[j].index in Indices(s));
    }
  }

  /** `{start}, {start+1}, ..., {start+n-1}`: the list an IN placeholder becomes. */
  function InList(start: nat, n: nat): Snippet
    requires 0 < n
    decreases n
  {
    if n == 1 then [Ph(start)] else [Ph(start), Lit(", ")] + InList(start + 1, n - 1)
  }

  /** The IN list mentions exactly the n indices from start on. */
  lemma {:induction false} InListIndices(start: nat, n: nat)
    requires 0 < n
    ensures forall k :: k in Indices(InList(start, n)) <==> start <= k < start + n
    decreases n
  {
    if n == 1 {
      assert Ph(start) in InList(start, n);
    } else {
      InListIndices(start + 1, n - 1);
      IndicesConcat([Ph(start), Lit(", ")], InList(start + 1, n - 1));
      assert Ph(start) in [Ph(start), Lit(", ")];
      assert Indices([Ph(start), Lit(", ")]) == {start};
    }
  }

  /** The IN list's only literal text is the separator ", ". */
  lemma {:induction false} InListPlain(start: nat, n: nat)
    requires 0 < n
    ensures Plain(InList(start, n))
    decreases n
  {
    if n > 1 {
      InListPlain(start + 1, n - 1);
      PlainConcat([Ph(start), Lit(", ")], InList(start + 1, n - 1));
    }
  }

  /** Every placeholder of the snippet is `{0}`. */
  predicate OnlyZero(s: Snippet) {
    forall i :: 0 <= i < |s| && s[i].Ph? ==> s[i].index == 0
  }

  /** The position of the first placeholder other than `{0}`, or |s| if there is none. */
  function FirstOther(s: Snippet): (r: nat)
    ensures r <= |s|
    ensures OnlyZero(s[..r])
    ensures r < |s| ==> s[r].Ph? && s[r].index != 0
    decreases |s|
  {
    if s == [] then 0
    else if s[0].Ph? && s[0].index != 0 then 0
    else
      var r' := FirstOther(s[1..]);
      assert s[..1 + r'] == [s[0]] + s[1..][..r'];
      1 + r'
  }

  /** The snippet with its k-th placeholder (k from 0) replaced by the IN list of the
      n indices from start + k * n on. */
  function ExpandIn(s: Snippet, n: nat, start: nat): Snippet
    requires 0 < n
    decreases |s|
  {
    if s == [] then []
    else
      var init := s[..|s| - 1];
      ExpandIn(init, n, start)
        + (if s[|s| - 1].Ph? then InList(start + n * PlaceholderCount(init), n) else [s[|s| - 1]])
  }

  /** Extending a prefix of the snippet by one token extends its count and its
      expansion by that token's share. */
  lemma ExpandInPrefix(s: Snippet, t: nat, n: nat, start: nat)
    requires t < |s| && 0 < n
    ensures PlaceholderCount(s[..t + 1]) == PlaceholderCount(s[..t]) + (if s[t].Ph? then 1 else 0)
    ensures ExpandIn(s[..t + 1], n, start)
         == ExpandIn(s[..t], n, start)
            + (if s[t].Ph? then InList(start + n * PlaceholderCount(s[..t]), n) else [s[t]])
    ensures OnlyZero(s[..t]) && (s[t].Ph? ==> s[t].index == 0) ==> OnlyZero(s[..t + 1])
  {
    assert s[..t + 1][..t] == s[..t];
    assert s[..t + 1][t] == s[t];
  }

  /** The expansion mentions exactly the indices start .. start + n * (placeholders) - 1,
      so successive IN lists never share an index. */
  lemma {:induction false} ExpandInIndices(s: Snippet, n: nat, start: nat)
    requires 0 < n
    ensures forall k :: k in Indices(ExpandIn(s, n, start)) <==> start <= k < start + n * PlaceholderCount(s)
    decreases |s|
  {
    if s != [] {
      var init, last := s[..|s| - 1], s[|s| - 1];
      var c := PlaceholderCount(init);
      ExpandInIndices(init, n, start);
      if last.Ph? {
        InListIndices(start + n * c, n);
        IndicesConcat(ExpandIn(init, n, start), InList(start + n * c, n));
        assert n * (c + 1) == n * c + n;
      } else {
        IndicesConcat(ExpandIn(init, n, start), [last]);
        assert Indices([last]) == {};
      }
    }
  }

  /** The expansion keeps the snippet's literals and adds IN lists, so it stays plain. */
  lemma {:induction false} ExpandInPlain(s: Snippet, n: nat, start: nat)
    requires 0 < n && Plain(s)
    ensures Plain(ExpandIn(s, n, start))
    decreases |s|
  {
    if s != [] {
      var init, last := s[..|s| - 1], s[|s| - 1];
      assert s == init + [last];
      PlainConcat(init, [last]);
      ExpandInPlain(init, n, start);
      var tail := if last.Ph? then InList(start + n * PlaceholderCount(init), n) else [last];
      if last.Ph? {
        InListPlain(start + n * PlaceholderCount(init), n);
      }
      PlainConcat(ExpandIn(init, n, start), tail);
    }
  }

  /** v written k times in a row. */
  function Repeat<T>(v: seq<T>, k: nat): seq<T>
    decreases k
  {
    if k == 0 then [] else Repeat(v, k - 1) + v
  }

  lemma {:induction false} RepeatLength<T>(v: seq<T>, k: nat)
    ensures |Repeat(v, k)| == k * |v|
    decreases k
  {
    if k > 0 {
      RepeatLength(v, k - 1);
      assert k * |v| == (k - 1) * |v| + |v|;
    }
  }

  /** The j-th value of the q-th copy sits at position q * |v| + j. */
  lemma {:induction false} RepeatIndex<T>(v: seq<T>, k: nat, q: nat, j: nat)
    requires q < k && j < |v|
    ensures |Repeat(v, k)| == k * |v|
    ensures q * |v| + j < k * |v| && Repeat(v, k)[q * |v| + j] == v[j]
    decreases k
  {
    RepeatLength(v, k);
    RepeatLength(v, k - 1);
    assert k * |v| == (k - 1) * |v| + |v|;
    if q < k - 1 {
      RepeatIndex(v, k - 1, q, j);
    } else {
      assert q * |v| == (k - 1) * |v|;
    }
  }
}
