/** The "Change Title" button of the about section: each click moves to the next
    of four job titles, cyclically, and shows it after the owner's name. */
module TitleRotation {

  const Owner: string := "Daniel Kague"

  const JobTitles: seq<string> := [
    "Web Designer & Software Developer",
    "Frontend Developer",
    "UI/UX Designer",
    "Full Stack Developer"
  ]

  /** `(currentIndex + 1) % jobTitles.length` */
  function Next(i: nat): (j: nat)
    ensures j < |JobTitles|
  {
    (i + 1) % |JobTitles|
  }

  /** The about-name text for title `i`: `${name} - ${newJobTitle}`. */
  function Caption(i: nat): string
    requires i < |JobTitles|
  {
    Owner + " - " + JobTitles[i]
  }

  /** The index after `k` clicks starting from `i`. */
  function After(i: nat, k: nat): (j: nat)
    ensures i < |JobTitles| ==> j < |JobTitles|
  {
    if k == 0 then i else Next(After(i, k - 1))
  }

  /** `k` clicks advance the index by `k`, modulo the number of titles. */
  lemma {:induction false} AfterIsModular(i: nat, k: nat)
    requires i < |JobTitles|
    ensures After(i, k) == (i + k) % |JobTitles|
  {
    if k > 0 {
      AfterIsModular(i, k - 1);
    }
  }

  /** Four clicks bring the button back to the title it started from. */
  lemma FourClicksReturn(i: nat)
    requires i < |JobTitles|
    ensures After(i, 4) == i
    ensures forall k :: 0 < k < 4 ==> After(i, k) != i
  {
    AfterIsModular(i, 4);
    forall k | 0 < k < 4
      ensures After(i, k) != i
    {
      AfterIsModular(i, k);
    }
  }

  /** The caption determines the title index: no two titles display alike. */
  lemma CaptionDeterminesTitle(i: nat, j: nat)
    requires i < |JobTitles| && j < |JobTitles|
    ensures Caption(i) == Caption(j) <==> i == j
  {
    if Caption(i) == Caption(j) {
      assert |Caption(i)| == |Owner| + 3 + |JobTitles[i]|;
      assert |JobTitles[0]| == 33 && |JobTitles[1]| == 18;
      assert |JobTitles[2]| == 14 && |JobTitles[3]| == 20;
    }
  }

  /** The button's closure state: `currentIndex` and the about-name text. */
  class TitleButton {
    var currentIndex: nat
    var aboutName: string

    /** Set-up: the index starts at 0 and the page's own text is left alone. */
    constructor (pageText: string)
      ensures currentIndex == 0 && aboutName == pageText
    {
      currentIndex := 0;
      aboutName := pageText;
    }

    /** The click listener. */
    method Click()
      modifies this
      ensures currentIndex == Next(old(currentIndex))
      ensures aboutName == Caption(currentIndex)
    {
      currentIndex := (currentIndex + 1) % |JobTitles|;
      aboutName := Owner + " - " + JobTitles[currentIndex];
    }
  }

  /** From set-up, click `k` shows title `k mod 4`: the first click shows
      "Frontend Developer", and title 0 is shown again only on click 4. The
      result is the about-name text after each of four clicks. */
  method ClickSequence(pageText: string) returns (captions: seq<string>)
    ensures captions == [Caption(1), Caption(2), Caption(3), Caption(0)]
  {
    var b := new TitleButton(pageText);
    b.Click();
    captions := [b.aboutName];
    b.Click();
    captions := captions + [b.aboutName];
    b.Click();
    captions := captions + [b.aboutName];
    b.Click();
    captions := captions + [b.aboutName];
  }
}
