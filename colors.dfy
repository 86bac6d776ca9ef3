/** `generate_color_scheme`: four HSL colours derived from one hue, the hue
    being the title's MD5 value reduced modulo 360. The MD5 value itself is an
    input (`md5`), so the model states the arithmetic and not the hash. */
module Colors {

  const HueCount: nat := 360

  /** One `hsl(h, s%, l%)` colour: hue in degrees, saturation and lightness in
      percent. */
  datatype Hsl = Hsl(hue: int, saturation: int, lightness: int)

  /** The four entries of the scheme; `gradient` is a 135-degree linear
      gradient between two colours. */
  datatype ColorScheme = ColorScheme(
    primary: Hsl,
    secondary: Hsl,
    accent: Hsl,
    gradientAngle: int,
    gradientFrom: Hsl,
    gradientTo: Hsl)

  /** How many degrees one turns on the colour wheel to get from hue `a` to
      hue `b`. */
  function Turn(a: int, b: int): (d: nat)
    ensures d < HueCount
  {
    (b - a) % HueCount
  }

  function HueOf(hash: nat): (h: nat)
    ensures h < HueCount
    ensures exists k: nat :: hash == k * HueCount + h
  {
    var h := hash % HueCount;
    assert hash == (hash / HueCount) * HueCount + h;
    h
  }

  predicate OnWheel(c: Hsl) { 0 <= c.hue < HueCount }

  /** The scheme for an MD5 value: every hue lies on the wheel, the primary hue
      is the hash's hue, the secondary is 30 degrees further, the accent is its
      complement (180 degrees either way), and the gradient turns 40 degrees from
      the primary colour. */
  function SchemeForHash(hash: nat): (c: ColorScheme)
    ensures OnWheel(c.primary) && OnWheel(c.secondary) && OnWheel(c.accent)
    ensures OnWheel(c.gradientFrom) && OnWheel(c.gradientTo)
    ensures c.primary.hue == HueOf(hash)
    ensures Turn(c.primary.hue, c.secondary.hue) == 30
    ensures Turn(c.primary.hue, c.accent.hue) == 180 && Turn(c.accent.hue, c.primary.hue) == 180
    ensures c.gradientFrom == c.primary && Turn(c.primary.hue, c.gradientTo.hue) == 40
    ensures c.primary.saturation == 80 && c.primary.lightness == 55
    ensures c.secondary.saturation == 70 && c.secondary.lightness == 60
    ensures c.accent.saturation == 75 && c.accent.lightness == 50
    ensures c.gradientTo.saturation == 70 && c.gradientTo.lightness == 60
    ensures c.gradientAngle == 135
  {
    var hue := HueOf(hash);
    ColorScheme(
      Hsl(hue, 80, 55),
      Hsl((hue + 30) % HueCount, 70, 60),
      Hsl((hue + 180) % HueCount, 75, 50),
      135,
      Hsl(hue, 80, 55),
      Hsl((hue + 40) % HueCount, 70, 60))
  }

  /** `generate_color_scheme(title)`, with the MD5 digest as a parameter. */
  function GenerateColorScheme(title: string, md5: string -> nat): (c: ColorScheme)
    ensures c.primary.hue == md5(title) % HueCount
    ensures c.secondary.hue == (md5(title) + 30) % HueCount && c.accent.hue == (md5(title) + 180) % HueCount
    ensures c.gradientFrom == c.primary && c.gradientTo.hue == (md5(title) + 40) % HueCount
  {
    SchemeForHash(md5(title))
  }

  /** A hue on the wheel is determined by the hue it is turned from and the
      number of degrees. */
  lemma TurnDetermines(a: int, b: int, b': int)
    requires 0 <= b < HueCount && 0 <= b' < HueCount
    requires Turn(a, b) == Turn(a, b')
    ensures b == b'
  {
    var k, k' := (b - a) / HueCount, (b' - a) / HueCount;
    assert b - a == k * HueCount + Turn(a, b);
    assert b' - a == k' * HueCount + Turn(a, b');
    assert (k - k') * HueCount == b - b';
  }

  /** Two MD5 values give the same scheme exactly when they give the same
      hue: titles clash in colour only when their hashes agree modulo 360. */
  lemma SchemeDeterminedByHue(h1: nat, h2: nat)
    ensures SchemeForHash(h1) == SchemeForHash(h2) <==> h1 % HueCount == h2 % HueCount
  {
    var c1, c2 := SchemeForHash(h1), SchemeForHash(h2);
    if HueOf(h1) == HueOf(h2) {
      TurnDetermines(c1.primary.hue, c1.secondary.hue, c2.secondary.hue);
      TurnDetermines(c1.primary.hue, c1.accent.hue, c2.accent.hue);
      TurnDetermines(c1.primary.hue, c1.gradientTo.hue, c2.gradientTo.hue);
    }
  }
}
