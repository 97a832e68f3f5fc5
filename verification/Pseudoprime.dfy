// The comment at common.go:104 calls the seven-base test deterministic for 64-bit integers. It is not:
// this file exhibits a 49-bit composite number that the test accepts.
module Pseudoprime {
  import opened ModularArithmetic
  import opened MillerRabin

  const COMPOSITE: nat := 341550071728321

  // The composite minus one is ODD * 2^6, and ODD has 43 bits.
  const ODD: nat := 5336719870755

  /** a^e leaves the remainder x. */
  ghost predicate PowerIs(a: nat, e: nat, x: nat)
  {
    Pow(a, e) % 341550071728321 == x
  }

  lemma Squared(a: nat, e: nat, x: nat, y: nat)
    requires PowerIs(a, e, x) && x * x % 341550071728321 == y
    ensures PowerIs(a, 2 * e, y)
  {
    var p, n := Pow(a, e), COMPOSITE;
    MulRemainder(p, p, n);
    MulRemainder(p, x, n);
    assert p * x == x * p;
    PowAdd(a, e, e);
  }

  /** Three more bits of the exponent, the digits of k in binary; m is a^k, and x2, x4, x8 are the squares on the way. */
  lemma ThreeBits(a: nat, e: nat, x: nat, x2: nat, x4: nat, x8: nat, k: nat, m: nat, y: nat)
    requires PowerIs(a, e, x) && Pow(a, k) == m
    requires x * x % 341550071728321 == x2 && x2 * x2 % 341550071728321 == x4
    requires x4 * x4 % 341550071728321 == x8 && x8 * m % 341550071728321 == y
    ensures PowerIs(a, 8 * e + k, y)
  {
    hide Pow;
    Squared(a, e, x, x2);
    Squared(a, 2 * e, x2, x4);
    Squared(a, 4 * e, x4, x8);
    MulRemainder(Pow(a, 8 * e), m, COMPOSITE);
    PowAdd(a, 8 * e, k);
  }

  lemma FirstPower(a: nat)
    requires a < COMPOSITE
    ensures PowerIs(a, 1, a)
  {
    assert Pow(a, 1) == a * Pow(a, 0) == a;
    RemainderIsUnique(a, 0, a, COMPOSITE);
  }

  lemma SmallPowers(a: nat)
    ensures Pow(a, 1) == a && Pow(a, 2) == a * a && Pow(a, 3) == a * a * a
    ensures Pow(a, 4) == a * a * (a * a) && Pow(a, 5) == a * a * (a * a) * a
  {
    PowAdd(a, 1, 1);
    PowAdd(a, 2, 1);
    PowAdd(a, 2, 2);
    PowAdd(a, 4, 1);
  }

  lemma Decomposition()
    ensures OddPart(COMPOSITE - 1) == ODD && TwosExponent(COMPOSITE - 1) == 6
  {
    OddPartUnique(ODD, 6);
    assert Pow(2, 6) == 64;
  }

  lemma {:induction false} OddPartUnique(d: nat, r: nat)
    requires d % 2 == 1
    ensures d * Pow(2, r) > 0 && OddPart(d * Pow(2, r)) == d && TwosExponent(d * Pow(2, r)) == r
  {
    if r > 0 {
      OddPartUnique(d, r - 1);
      assert d * Pow(2, r) == 2 * (d * Pow(2, r - 1)) by {
        Exchange(d, 2, Pow(2, r - 1));
      }
    }
  }

  /** A base passes when its power a^ODD is 1 or a square root of -1. */
  lemma Passes(a: nat, x: nat)
    requires PowerIs(a, ODD, x) && (x == 1 || x * x % COMPOSITE == COMPOSITE - 1)
    ensures PassesBase(a, COMPOSITE)
  {
    Decomposition();
    LadderStart(a, ODD);
    LadderSquares(a, ODD, 0, COMPOSITE);
  }

  lemma Base2()
    ensures PassesBase(2, COMPOSITE)
  {
    hide Pow, PowerIs, PassesBase;
    FirstPower(2);
    SmallPowers(2);
    ThreeBits(2, 1, 2, 4, 16, 256, 1, 2, 512);
    ThreeBits(2, 9, 512, 262144, 68719476736, 240233938594458, 5, 32, 173384456999594);
    ThreeBits(2, 77, 173384456999594, 260561235220399, 126863700335752, 116815908520699, 5, 32, 322608355379158);
    ThreeBits(2, 621, 322608355379158, 259749512467284, 262909397338782, 36296933686308, 2, 4, 145187734745232);
    ThreeBits(2, 4970, 145187734745232, 291194689784243, 1204538174891, 64856532539733, 1, 2, 129713065079466);
    ThreeBits(2, 39761, 129713065079466, 136321303941463, 107464717017681, 261921774270254, 5, 32, 184295055168424);
    ThreeBits(2, 318093, 184295055168424, 101907040671270, 82340850949505, 61763343866666, 2, 4, 247053375466664);
    ThreeBits(2, 2544746, 247053375466664, 243199016893512, 116886269067460, 107807012157328, 2, 4, 89677976900991);
    ThreeBits(2, 20357970, 89677976900991, 166232178286323, 46971902183813, 78916846621784, 5, 32, 134488589798841);
    ThreeBits(2, 162863765, 134488589798841, 295905973930714, 64022493348416, 45023498799347, 4, 16, 37275837332910);
    ThreeBits(2, 1302910124, 37275837332910, 41275356504954, 13822806488603, 320614730608874, 5, 32, 13169227634338);
    ThreeBits(2, 10423280997, 13169227634338, 168856019650651, 14219711030598, 28923022619200, 4, 16, 121218290178879);
    ThreeBits(2, 83386247980, 121218290178879, 334344566405940, 259226317009687, 18425146242966, 4, 16, 294802339887456);
    ThreeBits(2, 667089983844, 294802339887456, 154371783270307, 161736015664604, 3424190480386, 3, 8, 27393523843088);
    Passes(2, 27393523843088);
  }

  lemma Base3()
    ensures PassesBase(3, COMPOSITE)
  {
    hide Pow, PowerIs, PassesBase;
    FirstPower(3);
    SmallPowers(3);
    ThreeBits(3, 1, 3, 9, 81, 6561, 1, 3, 19683);
    ThreeBits(3, 9, 19683, 387420489, 154153808266202, 237756845241240, 5, 243, 52951271535071);
    ThreeBits(3, 77, 52951271535071, 220609316569664, 169571212968670, 80479893441629, 5, 243, 88260017801550);
    ThreeBits(3, 621, 88260017801550, 39542342278797, 199094787828723, 122819603998079, 2, 9, 80726220797748);
    ThreeBits(3, 4970, 80726220797748, 275644885123991, 42729492560487, 298062237507689, 1, 3, 211086569066425);
    ThreeBits(3, 39761, 211086569066425, 272943821228142, 241493129475806, 122010084572148, 5, 243, 275144382396358);
    ThreeBits(3, 318093, 275144382396358, 156302047349814, 271961186538347, 155068880100610, 2, 9, 29419633992206);
    ThreeBits(3, 2544746, 29419633992206, 320889749503818, 218719296242736, 332355273793300, 2, 9, 258796890313132);
    ThreeBits(3, 20357970, 258796890313132, 137823592989352, 16588536362415, 114031277243258, 5, 243, 44044560117693);
    ThreeBits(3, 162863765, 44044560117693, 208356290823150, 150658418519163, 58158918651145, 4, 81, 270721478274572);
    ThreeBits(3, 1302910124, 270721478274572, 22691073016696, 21049421453077, 27134331100300, 5, 243, 104191094534801);
    ThreeBits(3, 10423280997, 104191094534801, 159337505993050, 77775301977624, 59872964940887, 4, 81, 68009156015353);
    ThreeBits(3, 83386247980, 68009156015353, 236103227452022, 58483991565177, 208076311743801, 4, 81, 118227736560152);
    ThreeBits(3, 667089983844, 118227736560152, 202334844447927, 63301966692530, 25300005313209, 3, 27, 1);
    Passes(3, 1);
  }

  lemma Base5()
    ensures PassesBase(5, COMPOSITE)
  {
    hide Pow, PowerIs, PassesBase;
    FirstPower(5);
    SmallPowers(5);
    ThreeBits(5, 1, 5, 25, 625, 390625, 1, 5, 1953125);
    ThreeBits(5, 9, 1953125, 3814697265625, 274205526128987, 274349375286482, 5, 3125, 51117732170540);
    ThreeBits(5, 77, 51117732170540, 141915454650750, 93965916251885, 331206875469445, 5, 3125, 124768505202995);
    ThreeBits(5, 621, 124768505202995, 233225287838614, 271128867299077, 12294803949764, 2, 25, 307370098744100);
    ThreeBits(5, 4970, 307370098744100, 82944260791749, 162329029492946, 261039408022460, 1, 5, 280546824927337);
    ThreeBits(5, 39761, 280546824927337, 268781089049932, 206766478356562, 63676831003654, 5, 3125, 207955140535928);
    ThreeBits(5, 318093, 207955140535928, 268420071171533, 85677191297624, 188218494699255, 2, 25, 265311435013202);
    ThreeBits(5, 2544746, 265311435013202, 71873850752632, 292368186139334, 321931080052522, 2, 25, 192625351561667);
    ThreeBits(5, 20357970, 192625351561667, 64317727809526, 112851749543470, 8424990380749, 5, 3125, 28739416759908);
    ThreeBits(5, 162863765, 28739416759908, 14935658605083, 267722733071460, 337494180925245, 4, 625, 197468821904068);
    ThreeBits(5, 1302910124, 197468821904068, 67602331467278, 163908990703601, 254011341659833, 5, 3125, 23075990360121);
    ThreeBits(5, 10423280997, 23075990360121, 190178871561972, 6524341419502, 227720142889385, 4, 625, 240259466884089);
    ThreeBits(5, 83386247980, 240259466884089, 240718281875706, 329471423548605, 260490746589980, 4, 625, 228882476056704);
    ThreeBits(5, 667089983844, 228882476056704, 333184392663457, 191759611333816, 7978053530735, 3, 125, 314156547885233);
    Passes(5, 314156547885233);
  }

  lemma Base7()
    ensures PassesBase(7, COMPOSITE)
  {
    hide Pow, PowerIs, PassesBase;
    FirstPower(7);
    SmallPowers(7);
    ThreeBits(7, 1, 7, 49, 2401, 5764801, 1, 7, 40353607);
    ThreeBits(7, 9, 40353607, 262213310997165, 162674018686504, 7600361152234, 5, 16807, 341093130933105);
    ThreeBits(7, 77, 341093130933105, 230038213824167, 93330215194356, 181915145997202, 5, 16807, 233166734772743);
    ThreeBits(7, 621, 233166734772743, 57112601532539, 226903141027514, 200757656792977, 2, 49, 273723174462885);
    ThreeBits(7, 4970, 273723174462885, 72327807935079, 317654975527588, 10350870103202, 1, 7, 72456090722414);
    ThreeBits(7, 39761, 72456090722414, 133849322817746, 5007048879713, 66464701792115, 5, 16807, 203508468467135);
    ThreeBits(7, 318093, 203508468467135, 237706309865615, 219329191769546, 1417322609520, 2, 49, 69448807866480);
    ThreeBits(7, 2544746, 69448807866480, 154396479134601, 264969552826034, 66868287484748, 2, 49, 202595441197763);
    ThreeBits(7, 20357970, 202595441197763, 66009673526703, 139365003881292, 39125887674722, 5, 16807, 104906072034729);
    ThreeBits(7, 162863765, 104906072034729, 312818195814512, 149916297436935, 128824121963676, 4, 2401, 203901920655571);
    ThreeBits(7, 1302910124, 203901920655571, 113897561815011, 268208093984401, 183955388274954, 5, 16807, 26961452390186);
    ThreeBits(7, 10423280997, 26961452390186, 61958095937268, 245492899784513, 217916948096609, 4, 2401, 305432563898758);
    ThreeBits(7, 83386247980, 305432563898758, 250174050098515, 270992578404564, 201728840939355, 4, 2401, 32945384632177);
    ThreeBits(7, 667089983844, 32945384632177, 25167956006629, 189918809072110, 124471600484082, 3, 343, 1);
    Passes(7, 1);
  }

  lemma Base11()
    ensures PassesBase(11, COMPOSITE)
  {
    hide Pow, PowerIs, PassesBase;
    FirstPower(11);
    SmallPowers(11);
    ThreeBits(11, 1, 11, 121, 14641, 214358881, 1, 11, 2357947691);
    ThreeBits(11, 9, 2357947691, 165245898622243, 301254141324997, 12575137008371, 5, 161051, 188015057942712);
    ThreeBits(11, 77, 188015057942712, 296739866063293, 125494662072367, 205740552308113, 5, 161051, 266131266029911);
    ThreeBits(11, 621, 266131266029911, 171855184077778, 291469704906838, 190243517211087, 2, 121, 135610776744020);
    ThreeBits(11, 4970, 135610776744020, 180927866888870, 61043720992637, 7537699831701, 1, 11, 82914698148711);
    ThreeBits(11, 39761, 82914698148711, 279974428588203, 61046607004211, 297191697577634, 5, 161051, 242334998998320);
    ThreeBits(11, 318093, 242334998998320, 95600492134108, 199983472064024, 99555412896695, 2, 121, 91952450008860);
    ThreeBits(11, 2544746, 91952450008860, 55702381234498, 205871693722020, 186006515113446, 2, 121, 306033666386101);
    ThreeBits(11, 20357970, 306033666386101, 320078667250636, 238537840649468, 101679826826279, 5, 161051, 19601184708884);
    ThreeBits(11, 162863765, 19601184708884, 263049583627082, 203946193011996, 263167355007207, 4, 14641, 6885493328486);
    ThreeBits(11, 1302910124, 6885493328486, 235218429312193, 273104159464266, 31617534474206, 5, 161051, 207075279541038);
    ThreeBits(11, 10423280997, 207075279541038, 42506112329105, 100059474829296, 34412589686227, 4, 14641, 48369796776032);
    ThreeBits(11, 83386247980, 48369796776032, 29451757282515, 12059140452069, 22659908752857, 4, 14641, 118604402379646);
    ThreeBits(11, 667089983844, 118604402379646, 73701656417027, 331927976448580, 288431465531655, 3, 1331, 1);
    Passes(11, 1);
  }

  lemma Base13()
    ensures PassesBase(13, COMPOSITE)
  {
    hide Pow, PowerIs, PassesBase;
    FirstPower(13);
    SmallPowers(13);
    ThreeBits(13, 1, 13, 169, 28561, 815730721, 1, 13, 10604499373);
    ThreeBits(13, 9, 10604499373, 45835407703879, 70311143998505, 257614070070342, 5, 371293, 227981326381119);
    ThreeBits(13, 77, 227981326381119, 8761774493160, 227170440972471, 304171596110129, 5, 371293, 179266903233258);
    ThreeBits(13, 621, 179266903233258, 51291474422038, 269081919527420, 60080781568399, 2, 169, 248700004938122);
    ThreeBits(13, 4970, 248700004938122, 243933949824362, 197941204724409, 305384926645548, 1, 13, 212953257380593);
    ThreeBits(13, 39761, 212953257380593, 330709624235084, 313494247830858, 186896141739407, 5, 371293, 159531734937360);
    ThreeBits(13, 318093, 159531734937360, 308780132752940, 48192062654315, 307635835952006, 2, 169, 74845373184222);
    ThreeBits(13, 2544746, 74845373184222, 283930318545890, 150424832537723, 256203530479751, 2, 169, 263087613309473);
    ThreeBits(13, 20357970, 263087613309473, 292968796895073, 301845833490097, 300616772263721, 5, 371293, 47533657100058);
    ThreeBits(13, 162863765, 47533657100058, 195627343698892, 302694626251891, 4966913300570, 4, 28561, 116731010326555);
    ThreeBits(13, 1302910124, 116731010326555, 59291956047887, 295538510588276, 90977326933004, 5, 371293, 284105076635593);
    ThreeBits(13, 10423280997, 284105076635593, 9797274286125, 186597728598946, 330364546007286, 4, 28561, 221067019227821);
    ThreeBits(13, 83386247980, 221067019227821, 312196685762709, 112990883017317, 310618016299171, 4, 28561, 139600449213277);
    ThreeBits(13, 667089983844, 139600449213277, 204599129181791, 311692240030387, 254491337013774, 3, 2197, 1);
    Passes(13, 1);
  }

  lemma Base17()
    ensures PassesBase(17, COMPOSITE)
  {
    hide Pow, PowerIs, PassesBase;
    FirstPower(17);
    SmallPowers(17);
    ThreeBits(17, 1, 17, 289, 83521, 6975757441, 1, 17, 118587876497);
    ThreeBits(17, 9, 118587876497, 16804461097351, 60824442421936, 61163083055767, 5, 1419857, 310380669267859);
    ThreeBits(17, 77, 310380669267859, 330557578503351, 97772560956563, 214661569226020, 5, 1419857, 35738418996691);
    ThreeBits(17, 621, 35738418996691, 337624555417346, 329633187250603, 149849452762340, 2, 289, 271182810547814);
    ThreeBits(17, 4970, 271182810547814, 200034241114785, 173044601846981, 300630640850172, 1, 17, 329019890256430);
    ThreeBits(17, 39761, 329019890256430, 10039137284069, 143518575627580, 149098476520200, 5, 1419857, 316318180602464);
    ThreeBits(17, 318093, 316318180602464, 221213350616539, 124553082679186, 151739912771007, 2, 289, 134425609595935);
    ThreeBits(17, 2544746, 134425609595935, 142384507609618, 164649012005418, 247960147057189, 2, 289, 276517508308532);
    ThreeBits(17, 20357970, 276517508308532, 72177536005707, 26525149592026, 200788050755179, 5, 1419857, 182259825292308);
    ThreeBits(17, 162863765, 182259825292308, 294717212332879, 167731936883014, 80555571099831, 4, 83521, 228540924517893);
    ThreeBits(17, 1302910124, 228540924517893, 103808606764665, 191970398067145, 340677139343737, 5, 1419857, 46053523792421);
    ThreeBits(17, 10423280997, 46053523792421, 103642839403908, 171908337881806, 138444934446169, 4, 83521, 223241587901915);
    ThreeBits(17, 83386247980, 223241587901915, 124532117892610, 162978604455879, 322636322714164, 4, 83521, 315400403806149);
    ThreeBits(17, 667089983844, 315400403806149, 248505725697698, 86552557402397, 91897626442506, 3, 4913, 305393958919937);
    Passes(17, 305393958919937);
  }

  /** Acceptance does not imply primality on the 64-bit range. */
  lemma AcceptedComposite()
    ensures COMPOSITE == 10670053 * 32010157 && !Prime(COMPOSITE)
    ensures Accepted(COMPOSITE)
  {
    Base2();
    Base3();
    Base5();
    Base7();
    Base11();
    Base13();
    Base17();
    assert Divides(10670053, COMPOSITE);
    forall j | 0 <= j < |SMALL_PRIMES|
      ensures !Divides(SMALL_PRIMES[j] as nat, COMPOSITE) && PassesBase(SMALL_PRIMES[j] as nat, COMPOSITE)
    {
      assert SMALL_PRIMES[j] in {2, 3, 5, 7, 11, 13, 17};
    }
  }
}
