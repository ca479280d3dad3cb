/** Isolating display math in terms of code points: which characters stay, and
    what no block begins or ends with. */
module MathCharacters {
  import opened Text
  import opened MathLayout
  import opened MathIsolation

  /** The characters of `s` that are not listed as whitespace, in order. */
  function Visible(s: string): string {
    if s == "" then "" else (if IsListed(s[0]) then "" else [s[0]]) + Visible(s[1..])
  }

  /** The characters from `!` to `~`, in order. */
  function Ascii(s: string): string {
    if s == "" then "" else (if '!' <= s[0] <= '~' then [s[0]] else "") + Ascii(s[1..])
  }

  lemma {:induction false} InkIsVisible(s: string)
    ensures Ink(s) == Visible(s)
  {
    hide IsSpace, IsListed;
    if s != "" {
      SpacesAreListed(s[0]);
      InkIsVisible(s[1..]);
    }
  }

  /** For every text the sequence of the characters that are not listed is kept. */
  lemma IsolateKeepsVisible(t: string)
    ensures Visible(Isolate(t)) == Visible(t)
  {
    hide Ink, Visible, Isolate;
    InkIsVisible(t);
    InkIsVisible(Isolate(t));
    IsolateKeepsInk(t);
  }

  lemma AsciiIsNotListed(c: char)
    ensures '!' <= c <= '~' ==> !IsListed(c)
  {
  }

  lemma {:induction false} AsciiOfVisible(s: string)
    ensures Ascii(Visible(s)) == Ascii(s)
  {
    hide IsListed;
    if s != "" {
      AsciiIsNotListed(s[0]);
      AsciiOfVisible(s[1..]);
      if IsListed(s[0]) {
        assert Visible(s) == Visible(s[1..]);
      } else {
        assert Visible(s)[0] == s[0] && Visible(s)[1..] == Visible(s[1..]);
      }
    }
  }

  /** Letters, digits, signs and punctuation of ASCII all stay, in order. */
  lemma IsolateKeepsAscii(t: string)
    ensures Ascii(Isolate(t)) == Ascii(t)
  {
    hide Visible, Ascii, Isolate;
    IsolateKeepsVisible(t);
    AsciiOfVisible(t);
    AsciiOfVisible(Isolate(t));
  }

  // ---- The ends of the bodies ----

  /** The body stands on lines of its own: apart from the two newlines around it, it
      neither begins nor ends with a listed character. */
  predicate StandsClear(body: string) {
    |body| >= 2 && body[0] == '\n' && body[|body| - 1] == '\n' && HasInkAtEnds(body[1..|body| - 1])
  }

  predicate AllStandClear(d: Doc) {
    d.Block? ==> StandsClear(d.body) && AllStandClear(d.rest)
  }

  lemma NormBodyStandsClear(b: string)
    ensures StandsClear(NormBody(b))
  {
    hide Trim, IsSpace, IsListed, CapFrom;
    var c := Trim(b);
    TrimTrims(b);
    CapOfTrimmed(c);
    assert NormBody(b)[1..|NormBody(b)| - 1] == Cap(c);
    if Cap(c) != "" {
      SpacesAreListed(Cap(c)[0]);
      SpacesAreListed(Cap(c)[|Cap(c)| - 1]);
    }
  }

  lemma {:induction false} NormStandsClear(n: nat, d: Doc)
    ensures AllStandClear(Norm(n, d))
    decreases d
  {
    hide NormGap, NormBody, StandsClear, CapFrom;
    if d.Block? {
      NormBodyStandsClear(d.body);
      NormStandsClear(2, d.rest);
    }
  }

  /** For every text: the result is the text of blocks that stand clear, and it is
      read as them where no body opens with two more dollars. */
  lemma BodiesStandClear(t: string)
    ensures Isolate(t) == Source(Norm(0, Parse(t))) && AllStandClear(Norm(0, Parse(t)))
    ensures !SomeOpensTwice(Parse(t)) ==> AllStandClear(Parse(Isolate(t)))
  {
    hide Parse, Isolate, Norm, Source, AllStandClear, SomeOpensTwice;
    IsolateIs(t);
    NormStandsClear(0, Parse(t));
    if !SomeOpensTwice(Parse(t)) {
      IsolatedReading(t);
    }
  }
}
