/** Rotation arithmetic and the classifiers of utils.ts: the recency tier of a
    meal, the colour class of an effort level, the protein guessed from a
    title, and the image address derived from a title. */
module Utils {
  import opened Types
  import opened Text

  /** One day in milliseconds. */
  const DayMs: int := 86400000

  /** `getTier`, with the clock reading `now` passed in. The source divides
      the age by `DayMs` and compares the quotient with 14 and 60; on whole
      milliseconds that is the comparison of the age with 14 and 60 days.
      Exactly one tier, chosen by the age of the timestamp. */
  function GetTier(now: int, lastCooked: int): (r: Tier)
    ensures r == High <==> now - lastCooked <= 14 * DayMs
    ensures r == MediumTier <==> 14 * DayMs < now - lastCooked <= 60 * DayMs
    ensures r == Low <==> 60 * DayMs < now - lastCooked
  {
    var age := now - lastCooked;
    if age <= 14 * DayMs then High
    else if age <= 60 * DayMs then MediumTier
    else Low
  }

  /** The closed and open ends of the bands. */
  lemma GetTierBoundaries(now: int)
    ensures GetTier(now, now - 14 * DayMs) == High
    ensures GetTier(now, now - 14 * DayMs - 1) == MediumTier
    ensures GetTier(now, now - 60 * DayMs) == MediumTier
    ensures GetTier(now, now - 60 * DayMs - 1) == Low
  {
  }

  /** 0 for the most recent tier, 2 for the oldest. */
  function TierRank(t: Tier): nat {
    match t
    case High => 0
    case MediumTier => 1
    case Low => 2
  }

  /** An older timestamp never gets a more recent tier than a newer one. */
  lemma GetTierMonotonic(now: int, older: int, newer: int)
    requires older <= newer
    ensures TierRank(GetTier(now, older)) >= TierRank(GetTier(now, newer))
  {
  }

  /** `getEffortColor`. The source's `default` branch is unreachable for the
      three enumerated efforts. */
  function EffortColor(e: Effort): (r: string)
    ensures |r| >= 10 && IsPrefix("bg-", r) && r[|r| - 4..] == "-500"
  {
    match e
    case Easy => "bg-green-500"
    case Medium => "bg-yellow-500"
    case Hard => "bg-red-500"
  }

  /** The three efforts get three different classes. */
  lemma EffortColorsDistinct()
    ensures EffortColor(Easy) != EffortColor(Medium)
    ensures EffortColor(Medium) != EffortColor(Hard)
    ensures EffortColor(Easy) != EffortColor(Hard)
  {
  }

  /** Some word of the list occurs in `t`. */
  predicate AnyIncluded(t: string, words: seq<string>) {
    words != [] && (Includes(t, words[0]) || AnyIncluded(t, words[1..]))
  }

  const BeefWords: seq<string> := ["beef", "steak", "burger"]
  const ChickenWords: seq<string> := ["chicken", "wings"]
  const PorkWords: seq<string> := ["pork", "bacon", "ham"]
  const SeafoodWords: seq<string> := ["fish", "salmon", "tuna", "shrimp"]
  const VegetarianWords: seq<string> := ["tofu", "salad", "veg", "pizza"]

  /** The keyword groups of `determineProtein`, in the order it tries them,
      each with its answer. */
  const ProteinTable: seq<(seq<string>, string)> := [
    (BeefWords, "Beef"),
    (ChickenWords, "Chicken"),
    (PorkWords, "Pork"),
    (SeafoodWords, "Seafood"),
    (VegetarianWords, "Vegetarian")
  ]

  const Fallback: string := "Pantry / Misc"

  /** Reference reading of a keyword table: the answer of the first group one
      of whose words occurs in `t`, or the fallback. */
  function FirstMatch(table: seq<(seq<string>, string)>, t: string): (r: string)
    ensures r == Fallback || exists i :: 0 <= i < |table| && r == table[i].1
  {
    if table == [] then Fallback
    else if AnyIncluded(t, table[0].0) then table[0].1
    else
      var r := FirstMatch(table[1..], t);
      assert r != Fallback ==> exists i :: 0 <= i < |table| && r == table[i].1 by {
        if r != Fallback {
          var i :| 0 <= i < |table[1..]| && r == table[1..][i].1;
          assert r == table[i + 1].1;
        }
      }
      r
  }

  /** The six categories `determineProtein` can answer. */
  const Proteins: set<string> := {"Beef", "Chicken", "Pork", "Seafood", "Vegetarian", "Pantry / Misc"}

  /** `determineProtein`: a chain of tests on the lowercased title, each
      asking whether one of a group's words occurs in it (the source's `||`
      of `includes` calls), the first that succeeds giving the answer. */
  function DetermineProtein(title: string): (r: string)
    ensures r in Proteins
  {
    var t := Lower(title);
    if AnyIncluded(t, BeefWords) then "Beef"
    else if AnyIncluded(t, ChickenWords) then "Chicken"
    else if AnyIncluded(t, PorkWords) then "Pork"
    else if AnyIncluded(t, SeafoodWords) then "Seafood"
    else if AnyIncluded(t, VegetarianWords) then "Vegetarian"
    else "Pantry / Misc"
  }

  /** The chain is the first-match reading of the keyword table, applied to
      the lowercased title. */
  lemma DetermineProteinIsFirstMatch(title: string)
    ensures DetermineProtein(title) == FirstMatch(ProteinTable, Lower(title))
  {
    var t := Lower(title);
    var tb := ProteinTable;
    var t1, t2, t3, t4 := tb[1..], tb[2..], tb[3..], tb[4..];
    assert t1[0] == tb[1] && t1[1..] == t2;
    assert t2[0] == tb[2] && t2[1..] == t3;
    assert t3[0] == tb[3] && t3[1..] == t4;
    assert t4[0] == tb[4] && t4[1..] == [];
    assert tb[0] == (BeefWords, "Beef") && tb[1] == (ChickenWords, "Chicken");
    assert tb[2] == (PorkWords, "Pork") && tb[3] == (SeafoodWords, "Seafood");
    assert tb[4] == (VegetarianWords, "Vegetarian");
    assert FirstMatch(t4[1..], t) == Fallback;
    assert FirstMatch(t4, t) == if AnyIncluded(t, VegetarianWords) then "Vegetarian" else Fallback;
    assert FirstMatch(t3, t) == if AnyIncluded(t, SeafoodWords) then "Seafood" else FirstMatch(t4, t);
    assert FirstMatch(t2, t) == if AnyIncluded(t, PorkWords) then "Pork" else FirstMatch(t3, t);
    assert FirstMatch(t1, t) == if AnyIncluded(t, ChickenWords) then "Chicken" else FirstMatch(t2, t);
    assert FirstMatch(tb, t) == if AnyIncluded(t, BeefWords) then "Beef" else FirstMatch(t1, t);
  }

  /** A group matches exactly when one of its words occurs in the title. */
  lemma {:induction false} AnyIncludedIffSome(t: string, words: seq<string>)
    ensures AnyIncluded(t, words) <==> exists i :: 0 <= i < |words| && Includes(t, words[i])
  {
    if words != [] {
      AnyIncludedIffSome(t, words[1..]);
      if AnyIncluded(t, words[1..]) {
        var i :| 0 <= i < |words[1..]| && Includes(t, words[1..][i]);
        assert Includes(t, words[i + 1]);
      }
      if exists i :: 0 <= i < |words| && Includes(t, words[i]) {
        var i :| 0 <= i < |words| && Includes(t, words[i]);
        if i > 0 { assert Includes(t, words[1..][i - 1]); }
      }
    }
  }

  /** The answer depends on the title only through its lowercase form. */
  lemma DetermineProteinCaseInsensitive(title: string)
    ensures DetermineProtein(title) == DetermineProtein(Lower(title))
  {
    LowerIdempotent(title);
  }

  /** Earlier groups win: a title naming both a burger and chicken is beef. */
  lemma DetermineProteinBeefBeforeChicken(title: string)
    requires Includes(Lower(title), "burger") && Includes(Lower(title), "chicken")
    ensures DetermineProtein(title) == "Beef"
  {
    AnyIncludedIffSome(Lower(title), BeefWords);
    assert BeefWords[2] == "burger";
  }

  /** A title none of whose lowercase form contains a keyword falls back to
      'Pantry / Misc'. */
  lemma DetermineProteinFallback(title: string)
    requires forall i :: 0 <= i < |ProteinTable| ==> !AnyIncluded(Lower(title), ProteinTable[i].0)
    ensures DetermineProtein(title) == Fallback
  {
    assert ProteinTable[0].0 == BeefWords && ProteinTable[1].0 == ChickenWords;
    assert ProteinTable[2].0 == PorkWords && ProteinTable[3].0 == SeafoodWords;
    assert ProteinTable[4].0 == VegetarianWords;
  }

  /** Characters `encodeURIComponent` leaves as they are. */
  predicate IsUnreserved(c: char) {
    ('a' <= c <= 'z') || ('A' <= c <= 'Z') || ('0' <= c <= '9')
    || c == '-' || c == '_' || c == '.' || c == '!' || c == '~' || c == '*'
    || c == '\'' || c == '(' || c == ')'
  }

  function HexDigit(d: nat): (r: char)
    requires d < 16
    ensures IsUnreserved(r)
  {
    if d < 10 then ('0' as int + d) as char else ('A' as int + d - 10) as char
  }

  /** `%XX` for one byte. */
  function PercentByte(b: nat): (r: string)
    requires b < 256
    ensures |r| == 3 && r[0] == '%'
  {
    ['%', HexDigit(b / 16), HexDigit(b % 16)]
  }

  /** The UTF-8 bytes of one character. */
  function Utf8(c: char): (r: seq<nat>)
    ensures 1 <= |r| <= 4
    ensures forall i :: 0 <= i < |r| ==> r[i] < 256
  {
    var n := c as int;
    if n < 0x80 then [n]
    else if n < 0x800 then [0xC0 + n / 0x40, 0x80 + n % 0x40]
    else if n < 0x10000 then [0xE0 + n / 0x1000, 0x80 + (n / 0x40) % 0x40, 0x80 + n % 0x40]
    else [0xF0 + n / 0x40000, 0x80 + (n / 0x1000) % 0x40, 0x80 + (n / 0x40) % 0x40, 0x80 + n % 0x40]
  }

  function PercentBytes(bs: seq<nat>): (r: string)
    requires forall i :: 0 <= i < |bs| ==> bs[i] < 256
    ensures |r| == 3 * |bs|
    ensures forall i :: 0 <= i < |r| ==> r[i] == '%' || IsUnreserved(r[i])
  {
    if bs == [] then "" else PercentByte(bs[0]) + PercentBytes(bs[1..])
  }

  /** `encodeURIComponent`: unreserved characters stay, every other character
      becomes the percent-escapes of its UTF-8 bytes. */
  function EncodeUriComponent(s: string): (r: string)
    ensures forall i :: 0 <= i < |r| ==> r[i] == '%' || IsUnreserved(r[i])
    ensures |s| <= |r| <= 12 * |s|
  {
    if s == "" then ""
    else
      var head := if IsUnreserved(s[0]) then [s[0]] else PercentBytes(Utf8(s[0]));
      head + EncodeUriComponent(s[1..])
  }

  /** A string of unreserved characters is its own encoding. */
  lemma {:induction false} EncodeUnreservedIdentity(s: string)
    requires forall i :: 0 <= i < |s| ==> IsUnreserved(s[i])
    ensures EncodeUriComponent(s) == s
  {
    if s != "" {
      EncodeUnreservedIdentity(s[1..]);
      assert [s[0]] + s[1..] == s;
    }
  }

  /** `determineImage`: an image-search address for the title. */
  function DetermineImage(title: string): (r: string)
    ensures IsPrefix("https://tse2.mm.bing.net/th?q=", r)
  {
    "https://tse2.mm.bing.net/th?q=" + EncodeUriComponent(title + " delicious cooked food")
    + "&w=800&h=600&c=7&rs=1&p=0"
  }
}
