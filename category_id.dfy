/** Normalisation of a global category id (bot-owner.js:74): the id is
    lowercased, then every character outside `[a-z0-9_]` is removed. */
module CategoryId {

  /** A character the id may keep: `[a-z0-9_]`. */
  predicate IsIdChar(c: char)
  {
    ('a' <= c <= 'z') || ('0' <= c <= '9') || c == '_'
  }

  /** An id already in normal form. */
  predicate IsId(s: string)
  {
    forall i :: 0 <= i < |s| ==> IsIdChar(s[i])
  }

  /** `String.prototype.toLowerCase` on one character, exact on every
      character whose lowercase form contains a character of `[a-z0-9_]`:
      `A`-`Z`, U+0130 (whose lowercase form is `i` followed by U+0307) and
      the Kelvin sign U+212A (whose lowercase form is `k`). Every other
      character is returned as it is: its true lowercase form has no
      character of `[a-z0-9_]` either, so the filter removes both alike. */
  function LowerChar(c: char): (r: string)
    ensures 1 <= |r| <= 2
    ensures IsIdChar(c) ==> r == [c]
    ensures forall i :: 0 <= i < |r| ==> !('A' <= r[i] <= 'Z')
  {
    if 'A' <= c <= 'Z' then [(c as int + 32) as char]
    else if c == '\U{0130}' then ['i', '\U{0307}']
    else if c == '\U{212A}' then ['k']
    else [c]
  }

  /** `String.prototype.toLowerCase`: each character becomes one or two,
      and no `A`-`Z` is left. */
  function ToLower(s: string): (r: string)
    ensures |s| <= |r| <= 2 * |s|
    ensures forall i :: 0 <= i < |r| ==> !('A' <= r[i] <= 'Z')
  {
    if s == [] then [] else LowerChar(s[0]) + ToLower(s[1..])
  }

  /** `replace(/[^a-z0-9_]/g, '')` */
  function StripInvalid(s: string): (r: string)
    ensures IsId(r)
    ensures |r| <= |s|
  {
    if s == [] then []
    else if IsIdChar(s[0]) then [s[0]] + StripInvalid(s[1..])
    else StripInvalid(s[1..])
  }

  /** The id under which `add-global-category` stores a category. It may be
      empty: the handler does not reject that. */
  function Normalize(raw: string): (id: string)
    ensures IsId(id)
  {
    StripInvalid(ToLower(raw))
  }

  lemma {:induction false} StripInvalidConcat(a: string, b: string)
    ensures StripInvalid(a + b) == StripInvalid(a) + StripInvalid(b)
  {
    if a == [] {
      assert a + b == b;
    } else {
      assert (a + b)[1..] == a[1..] + b;
      StripInvalidConcat(a[1..], b);
    }
  }

  /** An id already in normal form passes the filter untouched, and only such an id. */
  lemma {:induction false} StripInvalidFixes(s: string)
    ensures StripInvalid(s) == s <==> IsId(s)
  {
    if s != [] {
      StripInvalidFixes(s[1..]);
      if !IsIdChar(s[0]) {
        assert |StripInvalid(s)| <= |s[1..]| < |s|;
      }
    }
  }

  /** Lowercasing leaves an id in normal form unchanged. */
  lemma {:induction false} ToLowerFixesId(s: string)
    requires IsId(s)
    ensures ToLower(s) == s
  {
    if s != [] {
      ToLowerFixesId(s[1..]);
      assert s == [s[0]] + s[1..];
    }
  }

  lemma {:induction false} ToLowerConcat(a: string, b: string)
    ensures ToLower(a + b) == ToLower(a) + ToLower(b)
  {
    if a == [] {
      assert a + b == b;
    } else {
      assert (a + b)[1..] == a[1..] + b;
      ToLowerConcat(a[1..], b);
    }
  }

  /** Normalising returns its argument exactly when the argument is already
      an id; normalisation is therefore idempotent. */
  lemma NormalizeFixes(s: string)
    ensures Normalize(s) == s <==> IsId(s)
    ensures Normalize(Normalize(s)) == Normalize(s)
  {
    if IsId(s) {
      ToLowerFixesId(s);
      StripInvalidFixes(s);
    }
    var id := Normalize(s);
    ToLowerFixesId(id);
    StripInvalidFixes(id);
  }

  /** Normalisation works character by character: the id of a concatenation
      is the concatenation of the ids. */
  lemma NormalizeConcat(a: string, b: string)
    ensures Normalize(a + b) == Normalize(a) + Normalize(b)
  {
    ToLowerConcat(a, b);
    StripInvalidConcat(ToLower(a), ToLower(b));
  }

  lemma {:induction false} ToLowerIdempotent(s: string)
    ensures ToLower(ToLower(s)) == ToLower(s)
  {
    if s != [] {
      ToLowerIdempotent(s[1..]);
      ToLowerConcat(LowerChar(s[0]), ToLower(s[1..]));
      LowerCharStable(s[0]);
    }
  }

  /** A lowercased character lowercases to itself. */
  lemma LowerCharStable(c: char)
    ensures ToLower(LowerChar(c)) == LowerChar(c)
  {
    var l := LowerChar(c);
    if |l| == 1 {
      assert ToLower(l) == LowerChar(l[0]) + ToLower(l[1..]);
      assert l[1..] == [];
    } else {
      assert l == ['i', '\U{0307}'];
      assert ToLower(l) == LowerChar('i') + ToLower(l[1..]);
      assert l[1..] == ['\U{0307}'];
      assert ToLower(l[1..]) == LowerChar('\U{0307}') + ToLower([]);
    }
  }

  /** Case does not matter: lowercasing the input first yields the same id. */
  lemma NormalizeIgnoresCase(s: string)
    ensures Normalize(ToLower(s)) == Normalize(s)
  {
    ToLowerIdempotent(s);
  }

  /** A character that is neither in `[A-Za-z0-9_]` nor one of the two
      non-ASCII characters whose lowercase form is ASCII does not matter
      wherever it stands: `"VIP Support!!"` and `"VIP Support"` give one id. */
  lemma NormalizeIgnoresPunctuation(a: string, c: char, b: string)
    requires !IsIdChar(c) && !('A' <= c <= 'Z') && c != '\U{0130}' && c != '\U{212A}'
    ensures Normalize(a + [c] + b) == Normalize(a + b)
  {
    NormalizeConcat(a + [c], b);
    NormalizeConcat(a, [c]);
    NormalizeConcat(a, b);
    NormalizeDrops(c);
    assert Normalize(a) + [] == Normalize(a);
  }

  /** Such a character on its own normalises to the empty id. */
  lemma NormalizeDrops(c: char)
    requires !IsIdChar(c) && !('A' <= c <= 'Z') && c != '\U{0130}' && c != '\U{212A}'
    ensures Normalize([c]) == []
  {
    assert ToLower([c]) == [c] + ToLower([]);
    assert StripInvalid([c]) == StripInvalid([c][1..]);
  }

  /** `"VIP Support!!"` and `"vip support"` are stored under the same id, so
      adding the second after the first is refused as a duplicate. */
  lemma VipSupportCollides()
    ensures Normalize("VIP Support!!") == Normalize("vip support")
  {
    VipSupportSplit();
    NormalizeConcat("VIP Support", "!!");
    BangsDropped();
    VipSupportCase();
    assert Normalize("VIP Support") + [] == Normalize("VIP Support");
  }

  lemma VipSupportSplit()
    ensures "VIP Support!!" == "VIP Support" + "!!"
  {
  }

  lemma BangsDropped()
    ensures Normalize("!!") == []
  {
  }

  lemma VipSupportCase()
    ensures Normalize("VIP Support") == Normalize("vip support")
  {
    NormalizeIgnoresCase("VIP Support");
    NormalizeIgnoresCase("vip support");
    VipSupportLowered();
  }

  lemma VipSupportLowered()
    ensures ToLower("VIP Support") == ToLower("vip support")
  {
  }

}
