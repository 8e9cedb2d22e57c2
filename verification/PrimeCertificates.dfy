/**
 That 2^255 - 19 is prime, by a chain of Pocklington certificates: each number of the chain is prime because
 the next one is a large prime factor of it less one.
 */
module PrimeCertificates {
  import opened Limbs
  import opened Powers
  import opened Primes

  // ----- Powers by two bits of the exponent at a time -----

  /** Which remainders some powers leave. */
  type Remainders = (nat, nat) -> bool

  /** From a power `e` with remainder `x` to the power `4 e + c` with remainder `y`. */
  predicate IsStep(m: nat, e: nat, x: nat, c: nat, t: nat, y: nat)
  {
    m > 1 && x * x * x * x * t % m == y
  }

  /** Known powers lead to the powers four times as high and up to three more. */
  ghost predicate Closed(m: nat, p: Remainders)
  {
    m > 1 && forall e: nat, x: nat, c: nat, t: nat, y: nat {:trigger IsStep(m, e, x, c, t, y)} ::
      p(e, x) && p(c, t) && IsStep(m, e, x, c, t, y) ==> p(4 * e + c, y)
  }

  predicate LowPowers(p: Remainders, a: nat, a2: nat, a3: nat)
  {
    p(0, 1) && p(1, a) && p(2, a2) && p(3, a3)
  }

  /** Steps of that kind lead from the low powers of `a` to the power `e`, whose remainder is `x`. */
  ghost predicate Reaches(m: nat, a: nat, a2: nat, a3: nat, e: nat, x: nat)
  {
    forall p: Remainders :: Closed(m, p) && LowPowers(p, a, a2, a3) ==> p(e, x)
  }

  lemma Next(m: nat, p: Remainders, e: nat, x: nat, c: nat, t: nat, y: nat) returns (f: nat, z: nat)
    requires Closed(m, p) && p(e, x) && p(c, t) && x * x * x * x * t % m == y
    ensures f == 4 * e + c && z == y && p(f, z)
  {
    assert IsStep(m, e, x, c, t, y);
    f, z := 4 * e + c, y;
  }

  lemma Doubled(m: nat, a: nat, e: nat, x: nat, y: nat)
    requires m > 0 && Exp(a, e) % m == x % m && y == x * x
    ensures Exp(a, 2 * e) % m == y % m
  {
    SquareStep(a, e, m);
    ModMul(x, x, m);
  }

  lemma SameProduct(a: nat, b: nat, c: nat, d: nat, m: nat)
    requires m > 0 && a % m == b % m && c % m == d % m
    ensures a * c % m == b * d % m
  {
    ModMul(a, c, m);
    ModMul(b, d, m);
  }

  /** From the power `e` to the power `4 e + c`. */
  lemma Step(m: nat, a: nat, e: nat, x: nat, c: nat, t: nat, y: nat)
    requires m > 1 && Exp(a, e) % m == x && Exp(a, c) % m == t && x * x * x * x * t % m == y
    ensures Exp(a, 4 * e + c) % m == y
  {
    DivModUnique(x, m, 0, x);
    DivModUnique(t, m, 0, t);
    var x2 := x * x;
    var x4 := x2 * x2;
    Doubled(m, a, e, x, x2);
    Doubled(m, a, 2 * e, x2, x4);
    ExpAdd(a, 4 * e, c);
    SameProduct(Exp(a, 4 * e), x4, Exp(a, c), t, m);
    FourTimes(x, x2, x4, t);
  }

  lemma FourTimes(x: nat, x2: nat, x4: nat, t: nat)
    requires x2 == x * x && x4 == x2 * x2
    ensures x4 * t == x * x * x * x * t
  {
    assert x4 == x * x * x * x;
  }

  function PowersOf(a: nat, m: nat): (p: Remainders)
    requires m > 0
  {
    (e: nat, x: nat) => Exp(a, e) % m == x
  }

  lemma PowersClosed(a: nat, m: nat)
    requires m > 1
    ensures Closed(m, PowersOf(a, m))
  {
    var p := PowersOf(a, m);
    forall e: nat, x: nat, c: nat, t: nat, y: nat {:trigger IsStep(m, e, x, c, t, y)} |
      p(e, x) && p(c, t) && IsStep(m, e, x, c, t, y)
      ensures p(4 * e + c, y)
    {
      Step(m, a, e, x, c, t, y);
    }
  }

  lemma PowersLow(a: nat, m: nat, a2: nat, a3: nat)
    requires m > 1 && a < m && a * a % m == a2 && a * a2 % m == a3
    ensures LowPowers(PowersOf(a, m), a, a2, a3)
  {
    DivModUnique(1, m, 0, 1);
    DivModUnique(a, m, 0, a);
    assert Exp(a, 1) == a * Exp(a, 0);
    assert Exp(a, 2) == a * Exp(a, 1);
    assert Exp(a, 3) == a * Exp(a, 2);
    ModMul(a, Exp(a, 2), m);
  }

  lemma ReachedPower(m: nat, a: nat, a2: nat, a3: nat, e: nat, x: nat)
    requires m > 1 && a < m && a * a % m == a2 && a * a2 % m == a3 && Reaches(m, a, a2, a3, e, x)
    ensures Exp(a, e) % m == x
  {
    PowersClosed(a, m);
    PowersLow(a, m, a2, a3);
  }

  /** The evidence that `n` is prime, from the two powers. */
  lemma Certified(n: nat, q: nat, R: nat, a: nat, a2: nat, a3: nat, b: nat, b2: nat, b3: nat, u: nat)
    requires n > 1 && n - 1 == q * R && a < n && 0 < b < n && u * (b - 1) % n == 1
    requires a * a % n == a2 && a * a2 % n == a3 && Reaches(n, a, a2, a3, R, b)
    requires b * b % n == b2 && b * b2 % n == b3 && Reaches(n, b, b2, b3, q, 1)
    ensures Witness(n, q, R, a, b, u)
  {
    ReachedPower(n, a, a2, a3, R, b);
    ReachedPower(n, b, b2, b3, q, 1);
    MakeWitness(n, q, R, a, b, u);
  }

  // ----- Top -----

  const TOP: nat := 57896044618658097711785492504343953926634992332820282019728792003956564819949

  lemma TopBase1(m: nat, p: Remainders)
    requires m == TOP && Closed(m, p) && LowPowers(p, 2, 4, 8)
    ensures p(195441, 6814271218530413793737419123678870252773648441814096715214653977322709480214)
  {
    var e, x := 2, 4;
    e, x := Next(m, p, e, x, 3, 8, 2048);
    e, x := Next(m, p, e, x, 3, 8, 140737488355328);
    e, x := Next(m, p, e, x, 2, 4, 1569275433846670190958947355801916604025588861116008628224);
    e, x := Next(m, p, e, x, 3, 8, 14474011154664524427946373126085988481658748083205070504932198000989141206702);
    e, x := Next(m, p, e, x, 1, 2, 19449452489080454700052938888178047022228942736806813491002641081120681299406);
    e, x := Next(m, p, e, x, 3, 8, 10011112483763715096745842972409582215110234036302095062009100585929643265913);
    e, x := Next(m, p, e, x, 0, 1, 13343768986571359007854455104042816243275199009921288930213888121862028233560);
    e, x := Next(m, p, e, x, 1, 2, 6814271218530413793737419123678870252773648441814096715214653977322709480214);
  }

  lemma TopBase(m: nat, p: Remainders)
    requires m == TOP && Closed(m, p) && LowPowers(p, 2, 4, 8)
    ensures p(781764, 427094198651976259540344842774561673889945192655078505504941250475370961481)
  {
    TopBase1(m, p);
    var e, x := 195441, 6814271218530413793737419123678870252773648441814096715214653977322709480214;
    e, x := Next(m, p, e, x, 0, 1, 427094198651976259540344842774561673889945192655078505504941250475370961481);
  }

  lemma TopPower1(m: nat, p: Remainders)
    requires m == TOP && Closed(m, p) && LowPowers(p, 427094198651976259540344842774561673889945192655078505504941250475370961481, 50914264381064792893419427774930386716764681640450898677223111048785958120942, 35567120054725949402377397932345644502253182707296690507070292355869331561574)
    ensures p(175806, 1208086653455915629473244906784075529826142873150602021569206610713968222662)
  {
    var e, x := 2, 50914264381064792893419427774930386716764681640450898677223111048785958120942;
    e, x := Next(m, p, e, x, 2, 50914264381064792893419427774930386716764681640450898677223111048785958120942, 6282790753020112160267437030074574253813645774790429746783168155208757012557);
    e, x := Next(m, p, e, x, 2, 50914264381064792893419427774930386716764681640450898677223111048785958120942, 14765951865405134974180171522516868216084625300557217921428897807662836440071);
    e, x := Next(m, p, e, x, 3, 35567120054725949402377397932345644502253182707296690507070292355869331561574, 14671606099065127063022213855609452736378076549275320985106317603993266282337);
    e, x := Next(m, p, e, x, 2, 50914264381064792893419427774930386716764681640450898677223111048785958120942, 29073007563727784458119572883955390856799487653336218899532319023272387176585);
    e, x := Next(m, p, e, x, 2, 50914264381064792893419427774930386716764681640450898677223111048785958120942, 44402186579791228141035588085027747096280442063129798053946789133901316676614);
    e, x := Next(m, p, e, x, 3, 35567120054725949402377397932345644502253182707296690507070292355869331561574, 12268677264589530759739771253904236518094501236130045080168379729096466449986);
    e, x := Next(m, p, e, x, 3, 35567120054725949402377397932345644502253182707296690507070292355869331561574, 43363039523573767831230147508338943781674155541484516688340096495548809479826);
    e, x := Next(m, p, e, x, 2, 50914264381064792893419427774930386716764681640450898677223111048785958120942, 1208086653455915629473244906784075529826142873150602021569206610713968222662);
  }

  lemma TopPower2(m: nat, p: Remainders)
    requires m == TOP && Closed(m, p) && LowPowers(p, 427094198651976259540344842774561673889945192655078505504941250475370961481, 50914264381064792893419427774930386716764681640450898677223111048785958120942, 35567120054725949402377397932345644502253182707296690507070292355869331561574)
    ensures p(11521634732, 13686208184444961691204503322476012798334868011838531760956098599325890290764)
  {
    TopPower1(m, p);
    var e, x := 175806, 1208086653455915629473244906784075529826142873150602021569206610713968222662;
    e, x := Next(m, p, e, x, 0, 1, 13424463060823658616402346012007364081521411047400928553282893951403917242422);
    e, x := Next(m, p, e, x, 3, 35567120054725949402377397932345644502253182707296690507070292355869331561574, 30171440387007391016384130743813133467097552389945945000264696127025945058384);
    e, x := Next(m, p, e, x, 0, 1, 48272500973152295566946354058903573395325749327719782344882181635352865030830);
    e, x := Next(m, p, e, x, 1, 427094198651976259540344842774561673889945192655078505504941250475370961481, 13033836636409619576203285041929315740509890397965984269460621985817963461749);
    e, x := Next(m, p, e, x, 2, 50914264381064792893419427774930386716764681640450898677223111048785958120942, 21581212595436810779393696112502495100442804460030777336590753122133947916047);
    e, x := Next(m, p, e, x, 2, 50914264381064792893419427774930386716764681640450898677223111048785958120942, 26552313240485186797580909783909855891329397417828066856434454382084404231310);
    e, x := Next(m, p, e, x, 3, 35567120054725949402377397932345644502253182707296690507070292355869331561574, 39113827730608986314749684476490932209953939012363727335166725308773928373370);
    e, x := Next(m, p, e, x, 0, 1, 13686208184444961691204503322476012798334868011838531760956098599325890290764);
  }

  lemma TopPower3(m: nat, p: Remainders)
    requires m == TOP && Closed(m, p) && LowPowers(p, 427094198651976259540344842774561673889945192655078505504941250475370961481, 50914264381064792893419427774930386716764681640450898677223111048785958120942, 35567120054725949402377397932345644502253182707296690507070292355869331561574)
    ensures p(755081853805887, 52954004240388556051630569594327453169900630189205355599216072741077851524215)
  {
    TopPower2(m, p);
    var e, x := 11521634732, 13686208184444961691204503322476012798334868011838531760956098599325890290764;
    e, x := Next(m, p, e, x, 0, 1, 18855187050262642606064855263681331663124173866884721516279807491556334298332);
    e, x := Next(m, p, e, x, 2, 50914264381064792893419427774930386716764681640450898677223111048785958120942, 9328384199961946514849016524349611796790993897360035376919041506704867840509);
    e, x := Next(m, p, e, x, 1, 427094198651976259540344842774561673889945192655078505504941250475370961481, 931337745902142669503822979629507155062445057196598851932773263800614343851);
    e, x := Next(m, p, e, x, 1, 427094198651976259540344842774561673889945192655078505504941250475370961481, 16748802369321623596929648019124830412481028278176832388809779744939476061453);
    e, x := Next(m, p, e, x, 0, 1, 47350905953550313082384582914768386779591231700435899029508418642693787469187);
    e, x := Next(m, p, e, x, 3, 35567120054725949402377397932345644502253182707296690507070292355869331561574, 2150482011269721680385419428221410907065699691468881212954920958681876326541);
    e, x := Next(m, p, e, x, 3, 35567120054725949402377397932345644502253182707296690507070292355869331561574, 32169130630667647042736653048045261217567817499652620705188996912552536924466);
    e, x := Next(m, p, e, x, 3, 35567120054725949402377397932345644502253182707296690507070292355869331561574, 52954004240388556051630569594327453169900630189205355599216072741077851524215);
  }

  lemma TopPower4(m: nat, p: Remainders)
    requires m == TOP && Closed(m, p) && LowPowers(p, 427094198651976259540344842774561673889945192655078505504941250475370961481, 50914264381064792893419427774930386716764681640450898677223111048785958120942, 35567120054725949402377397932345644502253182707296690507070292355869331561574)
    ensures p(49485044371022627788, 51457087697392379250044849781510961278014191262771804366839589940944412114896)
  {
    TopPower3(m, p);
    var e, x := 755081853805887, 52954004240388556051630569594327453169900630189205355599216072741077851524215;
    e, x := Next(m, p, e, x, 1, 427094198651976259540344842774561673889945192655078505504941250475370961481, 39194011694532861197585445397462742577184241789917629493980119483213449050725);
    e, x := Next(m, p, e, x, 0, 1, 49447354364721713194753236194045317723599705392660705943689883380473733771831);
    e, x := Next(m, p, e, x, 0, 1, 56654826113137596204768014569950329153426965729478432077505057568350283905680);
    e, x := Next(m, p, e, x, 3, 35567120054725949402377397932345644502253182707296690507070292355869331561574, 4014153111400426327589115196603232097915909705957950895536025490367469074560);
    e, x := Next(m, p, e, x, 3, 35567120054725949402377397932345644502253182707296690507070292355869331561574, 14715464329062704689330619358469326494056273169863050137747010548928835308075);
    e, x := Next(m, p, e, x, 0, 1, 8144196400714614890138705492322639981412853164412296909643807360163335422300);
    e, x := Next(m, p, e, x, 3, 35567120054725949402377397932345644502253182707296690507070292355869331561574, 29194840390136022116418100174159504709805301889691385347983575010945946447477);
    e, x := Next(m, p, e, x, 0, 1, 51457087697392379250044849781510961278014191262771804366839589940944412114896);
  }

  lemma TopPower5(m: nat, p: Remainders)
    requires m == TOP && Closed(m, p) && LowPowers(p, 427094198651976259540344842774561673889945192655078505504941250475370961481, 50914264381064792893419427774930386716764681640450898677223111048785958120942, 35567120054725949402377397932345644502253182707296690507070292355869331561574)
    ensures p(3243051867899338934759603, 14922624575515049999085843965852871933967550605227272973617535814066968361277)
  {
    TopPower4(m, p);
    var e, x := 49485044371022627788, 51457087697392379250044849781510961278014191262771804366839589940944412114896;
    e, x := Next(m, p, e, x, 2, 50914264381064792893419427774930386716764681640450898677223111048785958120942, 40494757217524916096333893757326246094581674999797029203460448369644634437933);
    e, x := Next(m, p, e, x, 3, 35567120054725949402377397932345644502253182707296690507070292355869331561574, 48115563690958252294366590751518736589017891715099409102972364313245174885881);
    e, x := Next(m, p, e, x, 0, 1, 13749678231053669407885903205390060755118682647629435216465254709945654881336);
    e, x := Next(m, p, e, x, 0, 1, 18236932998569906468569683699579568805780828746576787585565551316487316073697);
    e, x := Next(m, p, e, x, 2, 50914264381064792893419427774930386716764681640450898677223111048785958120942, 36679754671100784502224032698518219776846645840381363804541628501931343845944);
    e, x := Next(m, p, e, x, 3, 35567120054725949402377397932345644502253182707296690507070292355869331561574, 36112177499211997823760114083560223009464162657728499607171739960991460023132);
    e, x := Next(m, p, e, x, 0, 1, 26375387592200140890173505680436436792661476440963051257229024838570486475255);
    e, x := Next(m, p, e, x, 3, 35567120054725949402377397932345644502253182707296690507070292355869331561574, 14922624575515049999085843965852871933967550605227272973617535814066968361277);
  }

  lemma TopPower6(m: nat, p: Remainders)
    requires m == TOP && Closed(m, p) && LowPowers(p, 427094198651976259540344842774561673889945192655078505504941250475370961481, 50914264381064792893419427774930386716764681640450898677223111048785958120942, 35567120054725949402377397932345644502253182707296690507070292355869331561574)
    ensures p(212536647214651076428405353194, 6052533470867388388243386427431353180621175833394532827112508014776918427803)
  {
    TopPower5(m, p);
    var e, x := 3243051867899338934759603, 14922624575515049999085843965852871933967550605227272973617535814066968361277;
    e, x := Next(m, p, e, x, 0, 1, 51891996475240217344912424168125591879105831540732490679134744077936660996177);
    e, x := Next(m, p, e, x, 2, 50914264381064792893419427774930386716764681640450898677223111048785958120942, 16586492654914733038421171950010917443393386346348609537740207997284538925919);
    e, x := Next(m, p, e, x, 2, 50914264381064792893419427774930386716764681640450898677223111048785958120942, 21699744896966610672265588861461956356733168456234506605561573610781270510450);
    e, x := Next(m, p, e, x, 2, 50914264381064792893419427774930386716764681640450898677223111048785958120942, 34776894348296133375661138312485814248513926308629945899214160426335025692184);
    e, x := Next(m, p, e, x, 3, 35567120054725949402377397932345644502253182707296690507070292355869331561574, 8297162732913663049130402952361943475440129122795872372081970123405835636598);
    e, x := Next(m, p, e, x, 2, 50914264381064792893419427774930386716764681640450898677223111048785958120942, 32294338397354689586334010135233411745826965615842880175415626416136535543217);
    e, x := Next(m, p, e, x, 2, 50914264381064792893419427774930386716764681640450898677223111048785958120942, 1066350097371616244608709201357086835961572863019353798640477471761230210929);
    e, x := Next(m, p, e, x, 2, 50914264381064792893419427774930386716764681640450898677223111048785958120942, 6052533470867388388243386427431353180621175833394532827112508014776918427803);
  }

  lemma TopPower7(m: nat, p: Remainders)
    requires m == TOP && Closed(m, p) && LowPowers(p, 427094198651976259540344842774561673889945192655078505504941250475370961481, 50914264381064792893419427774930386716764681640450898677223111048785958120942, 35567120054725949402377397932345644502253182707296690507070292355869331561574)
    ensures p(13928801711859372944811973226979731, 55599644297254399380067768221438791830964206220885686812723745998587011109683)
  {
    TopPower6(m, p);
    var e, x := 212536647214651076428405353194, 6052533470867388388243386427431353180621175833394532827112508014776918427803;
    e, x := Next(m, p, e, x, 3, 35567120054725949402377397932345644502253182707296690507070292355869331561574, 52811916541552230674351750521636694425773201333048980882767612662244023622987);
    e, x := Next(m, p, e, x, 2, 50914264381064792893419427774930386716764681640450898677223111048785958120942, 6765096263557914111299396324714108147777033004476395758908326340511706462976);
    e, x := Next(m, p, e, x, 0, 1, 50756872667639136851086174897902427086064480639904915940823270431555292184292);
    e, x := Next(m, p, e, x, 1, 427094198651976259540344842774561673889945192655078505504941250475370961481, 30120870554414790599917219396157085023656965128991068650241534225007351359807);
    e, x := Next(m, p, e, x, 2, 50914264381064792893419427774930386716764681640450898677223111048785958120942, 35030720980695644378816764561547296219421716289698107714707623755379142404113);
    e, x := Next(m, p, e, x, 1, 427094198651976259540344842774561673889945192655078505504941250475370961481, 28820793180904676690926483884028651454895761256367670929917940578824441053206);
    e, x := Next(m, p, e, x, 0, 1, 48760568120287607313244737400751252546748954040758908117490580321502832363889);
    e, x := Next(m, p, e, x, 3, 35567120054725949402377397932345644502253182707296690507070292355869331561574, 55599644297254399380067768221438791830964206220885686812723745998587011109683);
  }

  lemma TopPower8(m: nat, p: Remainders)
    requires m == TOP && Closed(m, p) && LowPowers(p, 427094198651976259540344842774561673889945192655078505504941250475370961481, 50914264381064792893419427774930386716764681640450898677223111048785958120942, 35567120054725949402377397932345644502253182707296690507070292355869331561574)
    ensures p(912837948988415865311197477403343679411, 28546401485769269195453857999236772513134799931926354133640818957148449933220)
  {
    TopPower7(m, p);
    var e, x := 13928801711859372944811973226979731, 55599644297254399380067768221438791830964206220885686812723745998587011109683;
    e, x := Next(m, p, e, x, 1, 427094198651976259540344842774561673889945192655078505504941250475370961481, 6549110976955184117405636693563754975455334343930016720517171971217636266916);
    e, x := Next(m, p, e, x, 2, 50914264381064792893419427774930386716764681640450898677223111048785958120942, 39255831465789304310469982887916019394055843292683743842619560502337366975920);
    e, x := Next(m, p, e, x, 3, 35567120054725949402377397932345644502253182707296690507070292355869331561574, 42532873960830155040291175100454154608398784018656757614686213500177675678669);
    e, x := Next(m, p, e, x, 3, 35567120054725949402377397932345644502253182707296690507070292355869331561574, 1669945530604586292645933286911069863503771571661618145817425439334364956652);
    e, x := Next(m, p, e, x, 2, 50914264381064792893419427774930386716764681640450898677223111048785958120942, 17594918541358062859687974302911580657972998141100381007557325450992553076171);
    e, x := Next(m, p, e, x, 3, 35567120054725949402377397932345644502253182707296690507070292355869331561574, 24599783715049411654164990527693390622538588542985779900912408707697406945885);
    e, x := Next(m, p, e, x, 0, 1, 14461871592483881261971735660831462372461240489643981566949155844261368744243);
    e, x := Next(m, p, e, x, 3, 35567120054725949402377397932345644502253182707296690507070292355869331561574, 28546401485769269195453857999236772513134799931926354133640818957148449933220);
  }

  lemma TopPower9(m: nat, p: Remainders)
    requires m == TOP && Closed(m, p) && LowPowers(p, 427094198651976259540344842774561673889945192655078505504941250475370961481, 50914264381064792893419427774930386716764681640450898677223111048785958120942, 35567120054725949402377397932345644502253182707296690507070292355869331561574)
    ensures p(59823747824904822149034637879105531373905477, 5242484779595940496302437226111389349607205010128206326332981216206624847986)
  {
    TopPower8(m, p);
    var e, x := 912837948988415865311197477403343679411, 28546401485769269195453857999236772513134799931926354133640818957148449933220;
    e, x := Next(m, p, e, x, 1, 427094198651976259540344842774561673889945192655078505504941250475370961481, 45796910907002135359556463008630531184017085385285995109024888162234071944365);
    e, x := Next(m, p, e, x, 2, 50914264381064792893419427774930386716764681640450898677223111048785958120942, 41166965531205341650191581042385868373114891730606338535088473025512138835682);
    e, x := Next(m, p, e, x, 1, 427094198651976259540344842774561673889945192655078505504941250475370961481, 1247820739513428705333943914063554994307787498311081325790949607112222869199);
    e, x := Next(m, p, e, x, 2, 50914264381064792893419427774930386716764681640450898677223111048785958120942, 33421684130539673618910053061915198821022852828531219354501376754304965023347);
    e, x := Next(m, p, e, x, 1, 427094198651976259540344842774561673889945192655078505504941250475370961481, 41927681362474810558901233770005482544224610147512712285175177604325912526055);
    e, x := Next(m, p, e, x, 0, 1, 23081705795278562323519570688862862231251091444432372200455414161117208161632);
    e, x := Next(m, p, e, x, 1, 427094198651976259540344842774561673889945192655078505504941250475370961481, 39832906640652820503726398585200022390171411614790194628717605134751221283506);
    e, x := Next(m, p, e, x, 1, 427094198651976259540344842774561673889945192655078505504941250475370961481, 5242484779595940496302437226111389349607205010128206326332981216206624847986);
  }

  lemma TopPower10(m: nat, p: Remainders)
    requires m == TOP && Closed(m, p) && LowPowers(p, 427094198651976259540344842774561673889945192655078505504941250475370961481, 50914264381064792893419427774930386716764681640450898677223111048785958120942, 35567120054725949402377397932345644502253182707296690507070292355869331561574)
    ensures p(3920609137452962424359134028045060104120269345182, 13249385829552354583019656551678920110473580605081377300686587628654153237224)
  {
    TopPower9(m, p);
    var e, x := 59823747824904822149034637879105531373905477, 5242484779595940496302437226111389349607205010128206326332981216206624847986;
    e, x := Next(m, p, e, x, 0, 1, 48246343998747768039029153989911253679638057025269545489768349315671039285941);
    e, x := Next(m, p, e, x, 1, 427094198651976259540344842774561673889945192655078505504941250475370961481, 43552308034597376650375962058370418388404563743930774121862970414060722610358);
    e, x := Next(m, p, e, x, 0, 1, 52151714678777916517093620022923185720340113327740698312847380521262070838775);
    e, x := Next(m, p, e, x, 1, 427094198651976259540344842774561673889945192655078505504941250475370961481, 36882427607679055049084078993013576130148470320869556564280883003706241382403);
    e, x := Next(m, p, e, x, 2, 50914264381064792893419427774930386716764681640450898677223111048785958120942, 3215453593461425960611987298494385559511885300130936204675115439516779370492);
    e, x := Next(m, p, e, x, 1, 427094198651976259540344842774561673889945192655078505504941250475370961481, 57501231533071249507402569806155447708013924934939701136513029160767157826131);
    e, x := Next(m, p, e, x, 3, 35567120054725949402377397932345644502253182707296690507070292355869331561574, 152601542187853448978894384823834346382814296877938378035810330098204564735);
    e, x := Next(m, p, e, x, 2, 50914264381064792893419427774930386716764681640450898677223111048785958120942, 13249385829552354583019656551678920110473580605081377300686587628654153237224);
  }

  lemma TopPower11(m: nat, p: Remainders)
    requires m == TOP && Closed(m, p) && LowPowers(p, 427094198651976259540344842774561673889945192655078505504941250475370961481, 50914264381064792893419427774930386716764681640450898677223111048785958120942, 35567120054725949402377397932345644502253182707296690507070292355869331561574)
    ensures p(256941040432117345442800207661961058983625971805876331, 28898903750496282879679321878388304113225678355916847888928122834657925688431)
  {
    TopPower10(m, p);
    var e, x := 3920609137452962424359134028045060104120269345182, 13249385829552354583019656551678920110473580605081377300686587628654153237224;
    e, x := Next(m, p, e, x, 1, 427094198651976259540344842774561673889945192655078505504941250475370961481, 37609090340799994068413948117007459714616060363820694041986930964516200758593);
    e, x := Next(m, p, e, x, 3, 35567120054725949402377397932345644502253182707296690507070292355869331561574, 2894153154619478174679753050261223791001564703585208435341093989658713620228);
    e, x := Next(m, p, e, x, 0, 1, 19164346660738055113289996435041320314018433960420067764502877733761829864140);
    e, x := Next(m, p, e, x, 0, 1, 23327996931476801612517516469543720213030071754477006246823299059528614662282);
    e, x := Next(m, p, e, x, 1, 427094198651976259540344842774561673889945192655078505504941250475370961481, 48875752355309939871757830869853963593084430361509727384008678131659470121529);
    e, x := Next(m, p, e, x, 2, 50914264381064792893419427774930386716764681640450898677223111048785958120942, 32413731959821003125803150820914111202383006772384266714021418360677514858366);
    e, x := Next(m, p, e, x, 2, 50914264381064792893419427774930386716764681640450898677223111048785958120942, 18188732937062113440335717743220533369331661120261128937912396591400134039392);
    e, x := Next(m, p, e, x, 3, 35567120054725949402377397932345644502253182707296690507070292355869331561574, 28898903750496282879679321878388304113225678355916847888928122834657925688431);
  }

  lemma TopPower12(m: nat, p: Remainders)
    requires m == TOP && Closed(m, p) && LowPowers(p, 427094198651976259540344842774561673889945192655078505504941250475370961481, 50914264381064792893419427774930386716764681640450898677223111048785958120942, 35567120054725949402377397932345644502253182707296690507070292355869331561574)
    ensures p(16838888025759242350939354409334279961550911688269911260673, 42539694043354245764428298156228308720361762160177639521841687359636435415547)
  {
    TopPower11(m, p);
    var e, x := 256941040432117345442800207661961058983625971805876331, 28898903750496282879679321878388304113225678355916847888928122834657925688431;
    e, x := Next(m, p, e, x, 1, 427094198651976259540344842774561673889945192655078505504941250475370961481, 10883884111433223667315730906048902467283898482463509180944817238766197940663);
    e, x := Next(m, p, e, x, 3, 35567120054725949402377397932345644502253182707296690507070292355869331561574, 35473777925468659493192455858913558920296932341781913299141401153519128098599);
    e, x := Next(m, p, e, x, 3, 35567120054725949402377397932345644502253182707296690507070292355869331561574, 54169082321873428330638730529068421418942657738876193185681363403881165321328);
    e, x := Next(m, p, e, x, 2, 50914264381064792893419427774930386716764681640450898677223111048785958120942, 8896506518635824632252471503557819642004337646078590729625394372647992286837);
    e, x := Next(m, p, e, x, 0, 1, 935023828440474665390859167682111444061825137272694832519694352493224515034);
    e, x := Next(m, p, e, x, 0, 1, 8874275769270908184188935443134861264243532294721441566785998064904699407985);
    e, x := Next(m, p, e, x, 0, 1, 19062982700936893164249770525031733872625842725087887329754823910341902028081);
    e, x := Next(m, p, e, x, 1, 427094198651976259540344842774561673889945192655078505504941250475370961481, 42539694043354245764428298156228308720361762160177639521841687359636435415547);
  }

  lemma TopPower13(m: nat, p: Remainders)
    requires m == TOP && Closed(m, p) && LowPowers(p, 427094198651976259540344842774561673889945192655078505504941250475370961481, 50914264381064792893419427774930386716764681640450898677223111048785958120942, 35567120054725949402377397932345644502253182707296690507070292355869331561574)
    ensures p(1103553365656157706711161530570131371560200548402456904379474531, 26640510338933393310988380175489205519418730890073370862513564094257943020050)
  {
    TopPower12(m, p);
    var e, x := 16838888025759242350939354409334279961550911688269911260673, 42539694043354245764428298156228308720361762160177639521841687359636435415547;
    e, x := Next(m, p, e, x, 0, 1, 24918802905425761976188496551454470664772191904275086604180514545327758295197);
    e, x := Next(m, p, e, x, 2, 50914264381064792893419427774930386716764681640450898677223111048785958120942, 15787933884063083731523860917793289395884463571981110586113620482883928423379);
    e, x := Next(m, p, e, x, 0, 1, 13994427115391014544897438931103655458000929880022612602248729650544166562111);
    e, x := Next(m, p, e, x, 2, 50914264381064792893419427774930386716764681640450898677223111048785958120942, 36510454222244557545753177085367381112249008224871749310992412418525559372333);
    e, x := Next(m, p, e, x, 1, 427094198651976259540344842774561673889945192655078505504941250475370961481, 51741045559351665938260127113028283849658206032324741655895138422641520268587);
    e, x := Next(m, p, e, x, 2, 50914264381064792893419427774930386716764681640450898677223111048785958120942, 6110498484767490160012387194862094183338803037229949066059940975401214070989);
    e, x := Next(m, p, e, x, 0, 1, 30540907675580387017385907791723119891251814306795054389219986041132346246446);
    e, x := Next(m, p, e, x, 3, 35567120054725949402377397932345644502253182707296690507070292355869331561574, 26640510338933393310988380175489205519418730890073370862513564094257943020050);
  }

  lemma TopPower14(m: nat, p: Remainders)
    requires m == TOP && Closed(m, p) && LowPowers(p, 427094198651976259540344842774561673889945192655078505504941250475370961481, 50914264381064792893419427774930386716764681640450898677223111048785958120942, 35567120054725949402377397932345644502253182707296690507070292355869331561574)
    ensures p(72322473371641951467022682067444129566569303140103415685413242924161, 19419232893673161220677835722053384491163709809631580167057346603409087562811)
  {
    TopPower13(m, p);
    var e, x := 1103553365656157706711161530570131371560200548402456904379474531, 26640510338933393310988380175489205519418730890073370862513564094257943020050;
    e, x := Next(m, p, e, x, 3, 35567120054725949402377397932345644502253182707296690507070292355869331561574, 13647012101339909475706741026878740918802404762863524864323803974798575217813);
    e, x := Next(m, p, e, x, 2, 50914264381064792893419427774930386716764681640450898677223111048785958120942, 44791489242781786909265050548923091543747540072748862133077574124394209220063);
    e, x := Next(m, p, e, x, 3, 35567120054725949402377397932345644502253182707296690507070292355869331561574, 54093817427277148107869615290523170143429263543108894965662900100744228441816);
    e, x := Next(m, p, e, x, 0, 1, 18920132259804569315768614258737812853067287572619192688969069954356508644789);
    e, x := Next(m, p, e, x, 2, 50914264381064792893419427774930386716764681640450898677223111048785958120942, 25560460532752166059024512366388919500430392815330470846198193266275789041883);
    e, x := Next(m, p, e, x, 0, 1, 34767274707632539804949650353880568988641946971994994966360875238719381656371);
    e, x := Next(m, p, e, x, 0, 1, 53552677005656845413702691491443330960070798694340688854194162040428712379468);
    e, x := Next(m, p, e, x, 1, 427094198651976259540344842774561673889945192655078505504941250475370961481, 19419232893673161220677835722053384491163709809631580167057346603409087562811);
  }

  lemma TopPower(m: nat, p: Remainders)
    requires m == TOP && Closed(m, p) && LowPowers(p, 427094198651976259540344842774561673889945192655078505504941250475370961481, 50914264381064792893419427774930386716764681640450898677223111048785958120942, 35567120054725949402377397932345644502253182707296690507070292355869331561574)
    ensures p(74058212732561358302231226437062788676166966415465897661863160754340907, 1)
  {
    TopPower14(m, p);
    var e, x := 72322473371641951467022682067444129566569303140103415685413242924161, 19419232893673161220677835722053384491163709809631580167057346603409087562811;
    e, x := Next(m, p, e, x, 0, 1, 32114950556172515406831703024625072929990838741274810388106572087850143390736);
    e, x := Next(m, p, e, x, 0, 1, 48065247105543337114516180495608380835543182355398403694558119201372402904999);
    e, x := Next(m, p, e, x, 2, 50914264381064792893419427774930386716764681640450898677223111048785958120942, 10615849756382961826258691359158727798145802165111405256613649610189885584471);
    e, x := Next(m, p, e, x, 2, 50914264381064792893419427774930386716764681640450898677223111048785958120942, 534710732574991255856639317971141407552769210907976025071979522572597437801);
    e, x := Next(m, p, e, x, 3, 35567120054725949402377397932345644502253182707296690507070292355869331561574, 1);
  }

  // ----- First -----

  const FIRST: nat := 74058212732561358302231226437062788676166966415465897661863160754340907

  lemma FirstBase1(m: nat, p: Remainders)
    requires m == FIRST && Closed(m, p) && LowPowers(p, 2, 4, 8)
    ensures p(193588, 31026804441375728781910736262517853733312237591303124398479010334543908)
  {
    var e, x := 2, 4;
    e, x := Next(m, p, e, x, 3, 8, 2048);
    e, x := Next(m, p, e, x, 3, 8, 140737488355328);
    e, x := Next(m, p, e, x, 1, 2, 784637716923335095479473677900958302012794430558004314112);
    e, x := Next(m, p, e, x, 0, 1, 9257276591570169787778903304632848584520870801933237207732895094292629);
    e, x := Next(m, p, e, x, 0, 1, 67350303327341567303664872675307345658867663549221305857041082473184575);
    e, x := Next(m, p, e, x, 3, 8, 18418446759371592376799735687423774052183681127705011041697004266691425);
    e, x := Next(m, p, e, x, 1, 2, 10820701348675090188781782904093358004259012783131519068556942373226031);
    e, x := Next(m, p, e, x, 0, 1, 31026804441375728781910736262517853733312237591303124398479010334543908);
  }

  lemma FirstBase2(m: nat, p: Remainders)
    requires m == FIRST && Closed(m, p) && LowPowers(p, 2, 4, 8)
    ensures p(12687004477, 55979328769682415423166058127506160050484147169866874315296139590696741)
  {
    FirstBase1(m, p);
    var e, x := 193588, 31026804441375728781910736262517853733312237591303124398479010334543908;
    e, x := Next(m, p, e, x, 1, 2, 36291934579476949170961539441498659148733234289554665606497081457366218);
    e, x := Next(m, p, e, x, 1, 2, 45426864663646518485482412603622655631572460763133737969073214472904836);
    e, x := Next(m, p, e, x, 0, 1, 26468137062010504766510494899990372716311976644238514025378256550645878);
    e, x := Next(m, p, e, x, 3, 8, 73723555997206006869384972328794329770427073036451337622245846298282533);
    e, x := Next(m, p, e, x, 0, 1, 29758508075917093950376460550151922150999953377758899990487414539215855);
    e, x := Next(m, p, e, x, 3, 8, 33032251797657976845775598082804288848602308872313537746715500337914680);
    e, x := Next(m, p, e, x, 3, 8, 23106016685637634157287559334335934391370487219714175683276611963389156);
    e, x := Next(m, p, e, x, 1, 2, 55979328769682415423166058127506160050484147169866874315296139590696741);
  }

  lemma FirstBase3(m: nat, p: Remainders)
    requires m == FIRST && Closed(m, p) && LowPowers(p, 2, 4, 8)
    ensures p(831455525462941, 51610221560379778677873092924641887428558216155829860483579101455328292)
  {
    FirstBase2(m, p);
    var e, x := 12687004477, 55979328769682415423166058127506160050484147169866874315296139590696741;
    e, x := Next(m, p, e, x, 3, 8, 27761516180245189731908187747824767962457452781687581946686976166293915);
    e, x := Next(m, p, e, x, 2, 4, 62243176476028797547480952347273962206710983379796077722592821316367946);
    e, x := Next(m, p, e, x, 0, 1, 71590560715488230603160546455438943176626670054473393316687045232831522);
    e, x := Next(m, p, e, x, 3, 8, 73994299027674238557536821761741624074404976648766356356064316312414311);
    e, x := Next(m, p, e, x, 2, 4, 20186061522064547348942138738928635052949347431942743397747040877464336);
    e, x := Next(m, p, e, x, 1, 2, 58440526477421557842028399989200600975360531510958556328261883512183080);
    e, x := Next(m, p, e, x, 3, 8, 56850440753119798199641765124701563093724562108599945471550834900632544);
    e, x := Next(m, p, e, x, 1, 2, 51610221560379778677873092924641887428558216155829860483579101455328292);
  }

  lemma FirstBase4(m: nat, p: Remainders)
    requires m == FIRST && Closed(m, p) && LowPowers(p, 2, 4, 8)
    ensures p(54490269316739319912, 12219301287136083619979772169428104279429169654296992171429375052505739)
  {
    FirstBase3(m, p);
    var e, x := 831455525462941, 51610221560379778677873092924641887428558216155829860483579101455328292;
    e, x := Next(m, p, e, x, 1, 2, 7644206704861915064519872494262899263124054706753901718355019928171111);
    e, x := Next(m, p, e, x, 0, 1, 44910072599201880858785016335765272683153853309518365827614176295667456);
    e, x := Next(m, p, e, x, 2, 4, 44229501098471092128779605976169943203831069068326638942217283173370810);
    e, x := Next(m, p, e, x, 0, 1, 64736048859960574996725171318638238837341298743207500270134321237311574);
    e, x := Next(m, p, e, x, 1, 2, 73006098937535659217249858779868473560363143744827874117540793935541339);
    e, x := Next(m, p, e, x, 2, 4, 59164004801848140152236676725967919273956568472762473385950375178216207);
    e, x := Next(m, p, e, x, 2, 4, 70469177349291559466123681724612771667726699584267318722499984723657333);
    e, x := Next(m, p, e, x, 0, 1, 12219301287136083619979772169428104279429169654296992171429375052505739);
  }

  lemma FirstBase5(m: nat, p: Remainders)
    requires m == FIRST && Closed(m, p) && LowPowers(p, 2, 4, 8)
    ensures p(3571074289941828069804614, 61578077530096916426596978715402478932905687967287143836897864375537972)
  {
    FirstBase4(m, p);
    var e, x := 54490269316739319912, 12219301287136083619979772169428104279429169654296992171429375052505739;
    e, x := Next(m, p, e, x, 3, 8, 55268776644369205451234458373855931073298096374039012089695711263703948);
    e, x := Next(m, p, e, x, 0, 1, 4270266321051578943348609850947362855436106466744013275257027353441085);
    e, x := Next(m, p, e, x, 2, 4, 54980755414433188203062458250353229448483829906751478486261111467667851);
    e, x := Next(m, p, e, x, 2, 4, 65059046996379679682899910575007640085683652944613117515805467747006404);
    e, x := Next(m, p, e, x, 1, 2, 63451802044238897392199271441770955419508672762410507456557591853977470);
    e, x := Next(m, p, e, x, 0, 1, 41038390859567015992972922737202606252633949239260025002469908108295730);
    e, x := Next(m, p, e, x, 1, 2, 17624207582733641917495387846056778294471677926149874945567454640532283);
    e, x := Next(m, p, e, x, 2, 4, 61578077530096916426596978715402478932905687967287143836897864375537972);
  }

  lemma FirstBase6(m: nat, p: Remainders)
    requires m == FIRST && Closed(m, p) && LowPowers(p, 2, 4, 8)
    ensures p(234033924665627644382715192231, 10622552789254092636906058105188141289654609219000383430847022521194691)
  {
    FirstBase5(m, p);
    var e, x := 3571074289941828069804614, 61578077530096916426596978715402478932905687967287143836897864375537972;
    e, x := Next(m, p, e, x, 0, 1, 10828997928446210701989189866324491273221686470919068671602815019785289);
    e, x := Next(m, p, e, x, 2, 4, 47059771906714119819812480879258455447475740669393630153716347794740304);
    e, x := Next(m, p, e, x, 0, 1, 68648931893065637410210464875532471739450541519771408167643509998449990);
    e, x := Next(m, p, e, x, 3, 8, 44777293032195950306999229438824625693916416402529125060476520480059304);
    e, x := Next(m, p, e, x, 2, 4, 69739347985785909195117120511593078001038509240396491072119825759284226);
    e, x := Next(m, p, e, x, 2, 4, 8966701809750480175132281441372376453010733244796307400251428263928955);
    e, x := Next(m, p, e, x, 1, 2, 25367839317771031639952215701897139861415218974366781842116251919875393);
    e, x := Next(m, p, e, x, 3, 8, 10622552789254092636906058105188141289654609219000383430847022521194691);
  }

  lemma FirstBase7(m: nat, p: Remainders)
    requires m == FIRST && Closed(m, p) && LowPowers(p, 2, 4, 8)
    ensures p(15337647286886573302265622838110501, 59871792106663572955832521242387634588680708476662779603162677650268597)
  {
    FirstBase6(m, p);
    var e, x := 234033924665627644382715192231, 10622552789254092636906058105188141289654609219000383430847022521194691;
    e, x := Next(m, p, e, x, 3, 8, 21856358015838061538321139640202557757811906244077066571949230072250514);
    e, x := Next(m, p, e, x, 2, 4, 37207812695334010458645991763120351975762241618636847401056575066841294);
    e, x := Next(m, p, e, x, 2, 4, 65626805947523963538669627678002060436780939641818486051885986015610197);
    e, x := Next(m, p, e, x, 1, 2, 22215998879008375740440568544676670894116847390171418840696984340495629);
    e, x := Next(m, p, e, x, 0, 1, 593108134046836163611118372097765501214679492636961049514195218046251);
    e, x := Next(m, p, e, x, 2, 4, 25128021495193710391433785416588563254141892544643471369982176932522359);
    e, x := Next(m, p, e, x, 1, 2, 64430789838214670370977400022716497713195584758074789776176847535238085);
    e, x := Next(m, p, e, x, 1, 2, 59871792106663572955832521242387634588680708476662779603162677650268597);
  }

  lemma FirstBase(m: nat, p: Remainders)
    requires m == FIRST && Closed(m, p) && LowPowers(p, 2, 4, 8)
    ensures p(981609426360740691344999861639072106, 69490809710348678725736597923071784769591275419387514694139338586948360)
  {
    FirstBase7(m, p);
    var e, x := 15337647286886573302265622838110501, 59871792106663572955832521242387634588680708476662779603162677650268597;
    e, x := Next(m, p, e, x, 2, 4, 31696639904365753107769442767829799140366231137872339266966295574876487);
    e, x := Next(m, p, e, x, 2, 4, 43289307772775068289359397777382943891461722110298613870449815488589255);
    e, x := Next(m, p, e, x, 2, 4, 69490809710348678725736597923071784769591275419387514694139338586948360);
  }

  lemma FirstPower1(m: nat, p: Remainders)
    requires m == FIRST && Closed(m, p) && LowPowers(p, 69490809710348678725736597923071784769591275419387514694139338586948360, 71519616562801892103388382173053960292737390607941439804484891354816892, 60088572800817055067699822372808465038996750913542726491088342583516430)
    ensures p(238064, 70980303981236952471606078841106998093533045672561211122371820332354763)
  {
    var e, x := 3, 60088572800817055067699822372808465038996750913542726491088342583516430;
    e, x := Next(m, p, e, x, 2, 71519616562801892103388382173053960292737390607941439804484891354816892, 2395651831899443575619999089234687095966297154770387525027912120116590);
    e, x := Next(m, p, e, x, 2, 71519616562801892103388382173053960292737390607941439804484891354816892, 54145366084523822447349556193522347720892246474823042548156911831397736);
    e, x := Next(m, p, e, x, 0, 1, 65005703843471046884297048267651581560333448911250758560582020233644526);
    e, x := Next(m, p, e, x, 1, 69490809710348678725736597923071784769591275419387514694139338586948360, 16488791084382246799063329195349597831915365803818537886827378575255069);
    e, x := Next(m, p, e, x, 3, 60088572800817055067699822372808465038996750913542726491088342583516430, 15459224745017810788352643921931952037489605334639773072259534817348370);
    e, x := Next(m, p, e, x, 3, 60088572800817055067699822372808465038996750913542726491088342583516430, 44386420042930672904774800204028633739195555525872125164314896662021219);
    e, x := Next(m, p, e, x, 0, 1, 49988289520951304755462861377473370203768246459590314323104548528054391);
    e, x := Next(m, p, e, x, 0, 1, 70980303981236952471606078841106998093533045672561211122371820332354763);
  }

  lemma FirstPower2(m: nat, p: Remainders)
    requires m == FIRST && Closed(m, p) && LowPowers(p, 69490809710348678725736597923071784769591275419387514694139338586948360, 71519616562801892103388382173053960292737390607941439804484891354816892, 60088572800817055067699822372808465038996750913542726491088342583516430)
    ensures p(15601805597, 4418043689444550588193089361604960770901480851736057515784393458278752)
  {
    FirstPower1(m, p);
    var e, x := 238064, 70980303981236952471606078841106998093533045672561211122371820332354763;
    e, x := Next(m, p, e, x, 2, 71519616562801892103388382173053960292737390607941439804484891354816892, 70800302450674573892742726391040867568412593492343041149342563322990053);
    e, x := Next(m, p, e, x, 2, 71519616562801892103388382173053960292737390607941439804484891354816892, 54457054016747637761234044828742479419451705898635219166543719720497970);
    e, x := Next(m, p, e, x, 2, 71519616562801892103388382173053960292737390607941439804484891354816892, 45548416654163662946989229590980918867446862091683458246820881766362212);
    e, x := Next(m, p, e, x, 1, 69490809710348678725736597923071784769591275419387514694139338586948360, 30138998045167067039545138789380605446470916367358942309560691737030924);
    e, x := Next(m, p, e, x, 0, 1, 34956416377924708812584833391066731331428334105073926156463017554867765);
    e, x := Next(m, p, e, x, 1, 69490809710348678725736597923071784769591275419387514694139338586948360, 24627844351702883214247671479365326121165235476687372841128841614065553);
    e, x := Next(m, p, e, x, 3, 60088572800817055067699822372808465038996750913542726491088342583516430, 60522204641388360257719954407151554074121441222322640975335301043935729);
    e, x := Next(m, p, e, x, 1, 69490809710348678725736597923071784769591275419387514694139338586948360, 4418043689444550588193089361604960770901480851736057515784393458278752);
  }

  lemma FirstPower3(m: nat, p: Remainders)
    requires m == FIRST && Closed(m, p) && LowPowers(p, 69490809710348678725736597923071784769591275419387514694139338586948360, 71519616562801892103388382173053960292737390607941439804484891354816892, 60088572800817055067699822372808465038996750913542726491088342583516430)
    ensures p(1022479931665925, 5906885040421737832385902041286875095156901290711012408705425971392033)
  {
    FirstPower2(m, p);
    var e, x := 15601805597, 4418043689444550588193089361604960770901480851736057515784393458278752;
    e, x := Next(m, p, e, x, 3, 60088572800817055067699822372808465038996750913542726491088342583516430, 5233083480857771156401381539959552528946055228533057878759786677202459);
    e, x := Next(m, p, e, x, 2, 71519616562801892103388382173053960292737390607941439804484891354816892, 9115332237757384932281554698061847565289252530121841209344886891477265);
    e, x := Next(m, p, e, x, 3, 60088572800817055067699822372808465038996750913542726491088342583516430, 28155963719885292663869233263185011440794308128056499501030933989264660);
    e, x := Next(m, p, e, x, 2, 71519616562801892103388382173053960292737390607941439804484891354816892, 32876229480256621926417853433990232096703252779879402308502689519174468);
    e, x := Next(m, p, e, x, 0, 1, 31505606371679734915597632626915222924733724867874634384297152427674762);
    e, x := Next(m, p, e, x, 0, 1, 63622491301712469240719337677697986037203019750541906203034889293871082);
    e, x := Next(m, p, e, x, 1, 69490809710348678725736597923071784769591275419387514694139338586948360, 39592860730417117421109109325925042521510364406505185451266831930566809);
    e, x := Next(m, p, e, x, 1, 69490809710348678725736597923071784769591275419387514694139338586948360, 5906885040421737832385902041286875095156901290711012408705425971392033);
  }

  lemma FirstPower4(m: nat, p: Remainders)
    requires m == FIRST && Closed(m, p) && LowPowers(p, 69490809710348678725736597923071784769591275419387514694139338586948360, 71519616562801892103388382173053960292737390607941439804484891354816892, 60088572800817055067699822372808465038996750913542726491088342583516430)
    ensures p(67009244801658087518, 36781484586013188291994815198667327962455988113257514883499633424325472)
  {
    FirstPower3(m, p);
    var e, x := 1022479931665925, 5906885040421737832385902041286875095156901290711012408705425971392033;
    e, x := Next(m, p, e, x, 1, 69490809710348678725736597923071784769591275419387514694139338586948360, 28309188993743864354119995794692672907098942770400917878836700263464505);
    e, x := Next(m, p, e, x, 2, 71519616562801892103388382173053960292737390607941439804484891354816892, 26143839111559215195727422264990294832303013692299729171496339606897102);
    e, x := Next(m, p, e, x, 2, 71519616562801892103388382173053960292737390607941439804484891354816892, 25395140090164848658330976235476322931644535928932287388579706368372375);
    e, x := Next(m, p, e, x, 0, 1, 55439294398990933576200016024163585161698407644495546410110660003105498);
    e, x := Next(m, p, e, x, 1, 69490809710348678725736597923071784769591275419387514694139338586948360, 5262655384154029339887369427438655103143598368955218141797589714005615);
    e, x := Next(m, p, e, x, 1, 69490809710348678725736597923071784769591275419387514694139338586948360, 28741354823994296104102599167852568318234805925763761286590825576274052);
    e, x := Next(m, p, e, x, 3, 60088572800817055067699822372808465038996750913542726491088342583516430, 6058161326686104506509767362518466438300810243177755962935241661215327);
    e, x := Next(m, p, e, x, 2, 71519616562801892103388382173053960292737390607941439804484891354816892, 36781484586013188291994815198667327962455988113257514883499633424325472);
  }

  lemma FirstPower5(m: nat, p: Remainders)
    requires m == FIRST && Closed(m, p) && LowPowers(p, 69490809710348678725736597923071784769591275419387514694139338586948360, 71519616562801892103388382173053960292737390607941439804484891354816892, 60088572800817055067699822372808465038996750913542726491088342583516430)
    ensures p(4391517867321464423599585, 16367628016440380218608147792250637123016603750901998476124299141028312)
  {
    FirstPower4(m, p);
    var e, x := 67009244801658087518, 36781484586013188291994815198667327962455988113257514883499633424325472;
    e, x := Next(m, p, e, x, 1, 69490809710348678725736597923071784769591275419387514694139338586948360, 33534202839170675392774773078084590756052566323445909790810864890538693);
    e, x := Next(m, p, e, x, 0, 1, 7399279194160524617355845866512131580960267693093438452628761309589737);
    e, x := Next(m, p, e, x, 3, 60088572800817055067699822372808465038996750913542726491088342583516430, 51968074544915443050853184026991512074198152344691996686766403611619794);
    e, x := Next(m, p, e, x, 1, 69490809710348678725736597923071784769591275419387514694139338586948360, 11741091190541849402442408807575640090437838923264796719928274115084710);
    e, x := Next(m, p, e, x, 3, 60088572800817055067699822372808465038996750913542726491088342583516430, 58629963836264783547180002017400022820953712434667027232132231095850507);
    e, x := Next(m, p, e, x, 2, 71519616562801892103388382173053960292737390607941439804484891354816892, 5518158153721761316414653698950850966518108126749063920385876136067924);
    e, x := Next(m, p, e, x, 0, 1, 2357229829368336086363968184068480706041449792849514555233597382899395);
    e, x := Next(m, p, e, x, 1, 69490809710348678725736597923071784769591275419387514694139338586948360, 16367628016440380218608147792250637123016603750901998476124299141028312);
  }

  lemma FirstPower6(m: nat, p: Remainders)
    requires m == FIRST && Closed(m, p) && LowPowers(p, 69490809710348678725736597923071784769591275419387514694139338586948360, 71519616562801892103388382173053960292737390607941439804484891354816892, 60088572800817055067699822372808465038996750913542726491088342583516430)
    ensures p(287802514952779492465022455382, 60482700084958343193604755511764808881061662758304802174614941319599656)
  {
    FirstPower5(m, p);
    var e, x := 4391517867321464423599585, 16367628016440380218608147792250637123016603750901998476124299141028312;
    e, x := Next(m, p, e, x, 3, 60088572800817055067699822372808465038996750913542726491088342583516430, 43477568222200666162815720758861920635987876099241236114146871915643184);
    e, x := Next(m, p, e, x, 0, 1, 13425488488152914968327258939250946223593136639521399437396685170183724);
    e, x := Next(m, p, e, x, 3, 60088572800817055067699822372808465038996750913542726491088342583516430, 28751713256252279953017188645486945203257454578351364225077138433204435);
    e, x := Next(m, p, e, x, 2, 71519616562801892103388382173053960292737390607941439804484891354816892, 29830384705951221689350282562048135494180079748340173133392523922768806);
    e, x := Next(m, p, e, x, 1, 69490809710348678725736597923071784769591275419387514694139338586948360, 13343515644713718985950547620931362457704974308825894258439671891400686);
    e, x := Next(m, p, e, x, 1, 69490809710348678725736597923071784769591275419387514694139338586948360, 23402695734552683400455183129959257897885927750734406470861750166462124);
    e, x := Next(m, p, e, x, 1, 69490809710348678725736597923071784769591275419387514694139338586948360, 73559081625808744828472315670605024424302882386835939047348511341645948);
    e, x := Next(m, p, e, x, 2, 71519616562801892103388382173053960292737390607941439804484891354816892, 60482700084958343193604755511764808881061662758304802174614941319599656);
  }

  lemma FirstPower7(m: nat, p: Remainders)
    requires m == FIRST && Closed(m, p) && LowPowers(p, 69490809710348678725736597923071784769591275419387514694139338586948360, 71519616562801892103388382173053960292737390607941439804484891354816892, 60088572800817055067699822372808465038996750913542726491088342583516430)
    ensures p(18861425619945356818187711635966200, 5744487928750228590013537295726309742386549567459486389957134087710586)
  {
    FirstPower6(m, p);
    var e, x := 287802514952779492465022455382, 60482700084958343193604755511764808881061662758304802174614941319599656;
    e, x := Next(m, p, e, x, 3, 60088572800817055067699822372808465038996750913542726491088342583516430, 15151217314024759360594537935714382483680489456364192473979144464918530);
    e, x := Next(m, p, e, x, 0, 1, 18056134178495012569833871164394590282059854967675292156989643458782119);
    e, x := Next(m, p, e, x, 2, 71519616562801892103388382173053960292737390607941439804484891354816892, 28926930436698826442651590268352887552066052455340698769046093842516466);
    e, x := Next(m, p, e, x, 0, 1, 33181212105214845361569297259871291135272380886917483804238504061780098);
    e, x := Next(m, p, e, x, 3, 60088572800817055067699822372808465038996750913542726491088342583516430, 72445856303582737268265764553588218104962561695651867502817892122723462);
    e, x := Next(m, p, e, x, 3, 60088572800817055067699822372808465038996750913542726491088342583516430, 12907812885971884836785182254276701148673432393349214887251598086222170);
    e, x := Next(m, p, e, x, 2, 71519616562801892103388382173053960292737390607941439804484891354816892, 67910354579507421028615363730533684601932902935596694567711991427550383);
    e, x := Next(m, p, e, x, 0, 1, 5744487928750228590013537295726309742386549567459486389957134087710586);
  }

  lemma FirstPower(m: nat, p: Remainders)
    requires m == FIRST && Closed(m, p) && LowPowers(p, 69490809710348678725736597923071784769591275419387514694139338586948360, 71519616562801892103388382173053960292737390607941439804484891354816892, 60088572800817055067699822372808465038996750913542726491088342583516430)
    ensures p(75445702479781427272750846543864801, 1)
  {
    FirstPower7(m, p);
    var e, x := 18861425619945356818187711635966200, 5744487928750228590013537295726309742386549567459486389957134087710586;
    e, x := Next(m, p, e, x, 1, 69490809710348678725736597923071784769591275419387514694139338586948360, 1);
  }

  // ----- Second -----

  const SECOND: nat := 75445702479781427272750846543864801

  lemma SecondBase1(m: nat, p: Remainders)
    requires m == SECOND && Closed(m, p) && LowPowers(p, 2, 4, 8)
    ensures p(9151285430, 513309348704093895960925166856925)
  {
    var e, x := 2, 4;
    e, x := Next(m, p, e, x, 0, 1, 256);
    e, x := Next(m, p, e, x, 2, 4, 17179869184);
    e, x := Next(m, p, e, x, 0, 1, 37249017818367551225803357327630101);
    e, x := Next(m, p, e, x, 1, 2, 21000198704586354065408);
    e, x := Next(m, p, e, x, 1, 2, 54651969301387637110966512518401958);
    e, x := Next(m, p, e, x, 3, 8, 51294626676562810936092654843532318);
    e, x := Next(m, p, e, x, 1, 2, 32799974849867834837920162526425488);
    e, x := Next(m, p, e, x, 1, 2, 64134687226725695320034102205120082);
    e, x := Next(m, p, e, x, 2, 4, 52731668160668534429276816145493709);
    e, x := Next(m, p, e, x, 0, 1, 6815899006979597721589967479114253);
    e, x := Next(m, p, e, x, 2, 4, 36418643877802785581023883602796239);
    e, x := Next(m, p, e, x, 0, 1, 57793553327652931187992881475744335);
    e, x := Next(m, p, e, x, 2, 4, 61109090482572984699313167350717626);
    e, x := Next(m, p, e, x, 3, 8, 12989690226474060391927371730921649);
    e, x := Next(m, p, e, x, 1, 2, 41483535797710063532135253890982379);
    e, x := Next(m, p, e, x, 2, 4, 513309348704093895960925166856925);
  }

  lemma SecondBase(m: nat, p: Remainders)
    requires m == SECOND && Closed(m, p) && LowPowers(p, 2, 4, 8)
    ensures p(39304471641247389600, 56747016255153332959347766392083459)
  {
    SecondBase1(m, p);
    var e, x := 9151285430, 513309348704093895960925166856925;
    e, x := Next(m, p, e, x, 2, 4, 48786791113838861753548469283555870);
    e, x := Next(m, p, e, x, 3, 8, 34192708828629508492652582794096709);
    e, x := Next(m, p, e, x, 1, 2, 74284037970676428699992465145163071);
    e, x := Next(m, p, e, x, 0, 1, 57875049575816904056842656006512377);
    e, x := Next(m, p, e, x, 3, 8, 12685289843374237635476675559532455);
    e, x := Next(m, p, e, x, 3, 8, 38784832849308944787944580903906813);
    e, x := Next(m, p, e, x, 1, 2, 38877602689008559621761620122014640);
    e, x := Next(m, p, e, x, 3, 8, 72466306610823254233320016583786269);
    e, x := Next(m, p, e, x, 0, 1, 43675134191290428119386496951976659);
    e, x := Next(m, p, e, x, 1, 2, 18935679146042012693248632693634471);
    e, x := Next(m, p, e, x, 1, 2, 41712449112149596090570426404649850);
    e, x := Next(m, p, e, x, 3, 8, 13823227504923762148479631860009137);
    e, x := Next(m, p, e, x, 2, 4, 1888738652562569663194994370406907);
    e, x := Next(m, p, e, x, 2, 4, 44692679468887818587537417286939922);
    e, x := Next(m, p, e, x, 0, 1, 65810772782638593774538249456932274);
    e, x := Next(m, p, e, x, 0, 1, 56747016255153332959347766392083459);
  }

  lemma SecondPower1(m: nat, p: Remainders)
    requires m == SECOND && Closed(m, p) && LowPowers(p, 56747016255153332959347766392083459, 57392192270217903533858737733785835, 11341082394838988818629815250146301)
    ensures p(7322386052, 37915366180115829456528539631290147)
  {
    var e, x := 1, 56747016255153332959347766392083459;
    e, x := Next(m, p, e, x, 2, 57392192270217903533858737733785835, 155959012102660387425813834929579);
    e, x := Next(m, p, e, x, 3, 11341082394838988818629815250146301, 43794930860357342515802492599103949);
    e, x := Next(m, p, e, x, 1, 56747016255153332959347766392083459, 27202643174427731855640178633001884);
    e, x := Next(m, p, e, x, 0, 1, 36987265762985529521771229289714401);
    e, x := Next(m, p, e, x, 1, 56747016255153332959347766392083459, 44881019911104472380550725301959314);
    e, x := Next(m, p, e, x, 3, 11341082394838988818629815250146301, 234780451390292275924586330158888);
    e, x := Next(m, p, e, x, 0, 1, 15937525546816407118415523347669111);
    e, x := Next(m, p, e, x, 2, 57392192270217903533858737733785835, 74189065243340561207304552770060299);
    e, x := Next(m, p, e, x, 2, 57392192270217903533858737733785835, 42568191075887745383587395894444019);
    e, x := Next(m, p, e, x, 3, 11341082394838988818629815250146301, 16007527225797350459071559410994340);
    e, x := Next(m, p, e, x, 3, 11341082394838988818629815250146301, 72353342897573626660186343144851463);
    e, x := Next(m, p, e, x, 2, 57392192270217903533858737733785835, 8442880623864133217694160874123694);
    e, x := Next(m, p, e, x, 2, 57392192270217903533858737733785835, 14117643248705449579903760955255389);
    e, x := Next(m, p, e, x, 0, 1, 45026339722915023718361148453374059);
    e, x := Next(m, p, e, x, 1, 56747016255153332959347766392083459, 26687327869095617149515767253405403);
    e, x := Next(m, p, e, x, 0, 1, 37915366180115829456528539631290147);
  }

  lemma SecondPower(m: nat, p: Remainders)
    requires m == SECOND && Closed(m, p) && LowPowers(p, 56747016255153332959347766392083459, 57392192270217903533858737733785835, 11341082394838988818629815250146301)
    ensures p(1919519569386763, 1)
  {
    SecondPower1(m, p);
    var e, x := 7322386052, 37915366180115829456528539631290147;
    e, x := Next(m, p, e, x, 2, 57392192270217903533858737733785835, 8700384576254058316344741335546960);
    e, x := Next(m, p, e, x, 2, 57392192270217903533858737733785835, 68456139577989548683126738097420020);
    e, x := Next(m, p, e, x, 1, 56747016255153332959347766392083459, 13956964227800546053326728666811534);
    e, x := Next(m, p, e, x, 3, 11341082394838988818629815250146301, 45231450859940263498859075549876677);
    e, x := Next(m, p, e, x, 1, 56747016255153332959347766392083459, 71831935470169421365666802305933708);
    e, x := Next(m, p, e, x, 0, 1, 39861800344642687294082677661917528);
    e, x := Next(m, p, e, x, 0, 1, 12483880574092517505129590836317004);
    e, x := Next(m, p, e, x, 2, 57392192270217903533858737733785835, 28238288389390818070653075202219453);
    e, x := Next(m, p, e, x, 3, 11341082394838988818629815250146301, 1);
  }

  // ----- Third -----

  const THIRD: nat := 1919519569386763

  lemma ThirdBase(m: nat, p: Remainders)
    requires m == THIRD && Closed(m, p) && LowPowers(p, 2, 4, 8)
    ensures p(223873314, 1059928654987441)
  {
    var e, x := 3, 8;
    e, x := Next(m, p, e, x, 1, 2, 8192);
    e, x := Next(m, p, e, x, 1, 2, 1329120977193940);
    e, x := Next(m, p, e, x, 1, 2, 1672969091722082);
    e, x := Next(m, p, e, x, 2, 4, 1131232746713132);
    e, x := Next(m, p, e, x, 0, 1, 439825148891359);
    e, x := Next(m, p, e, x, 0, 1, 1417188017686439);
    e, x := Next(m, p, e, x, 0, 1, 1384618485920380);
    e, x := Next(m, p, e, x, 2, 4, 821990456217230);
    e, x := Next(m, p, e, x, 1, 2, 1639521232619602);
    e, x := Next(m, p, e, x, 0, 1, 280066608751023);
    e, x := Next(m, p, e, x, 2, 4, 661679051269421);
    e, x := Next(m, p, e, x, 0, 1, 1817493499934335);
    e, x := Next(m, p, e, x, 2, 4, 1059928654987441);
  }

  lemma ThirdPower(m: nat, p: Remainders)
    requires m == THIRD && Closed(m, p) && LowPowers(p, 1059928654987441, 378404018618345, 1637718672502137)
    ensures p(8574133, 1)
  {
    var e, x := 2, 378404018618345;
    e, x := Next(m, p, e, x, 0, 1, 177743405145843);
    e, x := Next(m, p, e, x, 0, 1, 1708865658966864);
    e, x := Next(m, p, e, x, 2, 378404018618345, 1731416200464907);
    e, x := Next(m, p, e, x, 3, 1637718672502137, 474005533779101);
    e, x := Next(m, p, e, x, 1, 1059928654987441, 1815542347366093);
    e, x := Next(m, p, e, x, 1, 1059928654987441, 1094828973022372);
    e, x := Next(m, p, e, x, 0, 1, 1461878117886092);
    e, x := Next(m, p, e, x, 2, 378404018618345, 690624347585068);
    e, x := Next(m, p, e, x, 3, 1637718672502137, 310417877454699);
    e, x := Next(m, p, e, x, 1, 1059928654987441, 1572851233659424);
    e, x := Next(m, p, e, x, 1, 1059928654987441, 1);
  }

  // ----- Fourth -----

  const FOURTH: nat := 8574133

  lemma FourthBase(m: nat, p: Remainders)
    requires m == FOURTH && Closed(m, p) && LowPowers(p, 2, 4, 8)
    ensures p(8652, 3435729)
  {
    var e, x := 2, 4;
    e, x := Next(m, p, e, x, 0, 1, 256);
    e, x := Next(m, p, e, x, 1, 2, 7227459);
    e, x := Next(m, p, e, x, 3, 8, 430341);
    e, x := Next(m, p, e, x, 0, 1, 7336713);
    e, x := Next(m, p, e, x, 3, 8, 69772);
    e, x := Next(m, p, e, x, 0, 1, 3435729);
  }

  lemma FourthPower(m: nat, p: Remainders)
    requires m == FOURTH && Closed(m, p) && LowPowers(p, 3435729, 1932883, 7537281)
    ensures p(991, 1)
  {
    var e, x := 3, 7537281;
    e, x := Next(m, p, e, x, 3, 7537281, 6784828);
    e, x := Next(m, p, e, x, 1, 3435729, 1416919);
    e, x := Next(m, p, e, x, 3, 7537281, 5036138);
    e, x := Next(m, p, e, x, 3, 7537281, 1);
  }

  // ----- The chain -----

  lemma Prime991()
    ensures Prime(991)
  {
    assert forall k :: 2 <= k <= 31 ==> 991 % k != 0;
    if !Prime(991) {
      var r := SmallDivisor(991);
      if r > 31 { SquareMono(32, r); }
      assert false;
    }
  }

  lemma FourthWitness(n: nat, q: nat, R: nat, a: nat, b: nat, u: nat)
    requires n == FOURTH && q == 991 && R == 8652 && a == 2
    requires b == 3435729
    requires u == 1014251
    ensures Witness(n, q, R, a, b, u)
  {
    forall p: Remainders | Closed(n, p) && LowPowers(p, 2, 4, 8) ensures p(R, b) { FourthBase(n, p); }
    forall p: Remainders | Closed(n, p) && LowPowers(p, b, 1932883, 7537281) ensures p(q, 1) { FourthPower(n, p); }
    Certified(n, q, R, a, 4, 8, b, 1932883, 7537281, u);
  }

  lemma FourthIsPrime()
    ensures Prime(FOURTH)
  {
    Prime991();
    FourthWitness(FOURTH, 991, 8652, 2, 3435729, 1014251);
    Between(723, 524144);
    PrimeByDigits(FOURTH, 991, 8652, 2, 3435729, 1014251);
  }

  lemma ThirdWitness(n: nat, q: nat, R: nat, a: nat, b: nat, u: nat)
    requires n == THIRD && q == FOURTH && R == 223873314 && a == 2
    requires b == 1059928654987441
    requires u == 1290547218147893
    ensures Witness(n, q, R, a, b, u)
  {
    forall p: Remainders | Closed(n, p) && LowPowers(p, 2, 4, 8) ensures p(R, b) { ThirdBase(n, p); }
    forall p: Remainders | Closed(n, p) && LowPowers(p, b, 378404018618345, 1637718672502137) ensures p(q, 1) { ThirdPower(n, p); }
    Certified(n, q, R, a, 4, 8, b, 378404018618345, 1637718672502137, u);
  }

  lemma ThirdIsPrime()
    ensures Prime(THIRD)
  {
    FourthIsPrime();
    ThirdWitness(THIRD, FOURTH, 223873314, 2, 1059928654987441, 1290547218147893);
    Between(945855, 894643572632);
    PrimeByDigits(THIRD, FOURTH, 223873314, 2, 1059928654987441, 1290547218147893);
  }

  lemma SecondWitness(n: nat, q: nat, R: nat, a: nat, b: nat, u: nat)
    requires n == SECOND && q == THIRD && R == 39304471641247389600 && a == 2
    requires b == 56747016255153332959347766392083459
    requires u == 74602835786463724888147869570305675
    ensures Witness(n, q, R, a, b, u)
  {
    forall p: Remainders | Closed(n, p) && LowPowers(p, 2, 4, 8) ensures p(R, b) { SecondBase(n, p); }
    forall p: Remainders | Closed(n, p) && LowPowers(p, b, 57392192270217903533858737733785835, 11341082394838988818629815250146301) ensures p(q, 1) { SecondPower(n, p); }
    Certified(n, q, R, a, 4, 8, b, 57392192270217903533858737733785835, 11341082394838988818629815250146301, u);
  }

  lemma SecondIsPrime()
    ensures Prime(SECOND)
  {
    ThirdIsPrime();
    SecondWitness(SECOND, THIRD, 39304471641247389600, 2, 56747016255153332959347766392083459, 74602835786463724888147869570305675);
    Between(388938484030411, 151273144359875050351740807840);
    PrimeByDigits(SECOND, THIRD, 39304471641247389600, 2, 56747016255153332959347766392083459, 74602835786463724888147869570305675);
  }

  lemma FirstWitness(n: nat, q: nat, R: nat, a: nat, b: nat, u: nat)
    requires n == FIRST && q == SECOND && R == 981609426360740691344999861639072106 && a == 2
    requires b == 69490809710348678725736597923071784769591275419387514694139338586948360
    requires u == 70463328703800545008217672123162676565183935400628861884889913886334520
    ensures Witness(n, q, R, a, b, u)
  {
    forall p: Remainders | Closed(n, p) && LowPowers(p, 2, 4, 8) ensures p(R, b) { FirstBase(n, p); }
    forall p: Remainders | Closed(n, p) && LowPowers(p, b, 71519616562801892103388382173053960292737390607941439804484891354816892, 60088572800817055067699822372808465038996750913542726491088342583516430) ensures p(q, 1) { FirstPower(n, p); }
    Certified(n, q, R, a, 4, 8, b, 71519616562801892103388382173053960292737390607941439804484891354816892, 60088572800817055067699822372808465038996750913542726491088342583516430, u);
  }

  lemma FirstIsPrime()
    ensures Prime(FIRST)
  {
    SecondIsPrime();
    FirstWitness(FIRST, SECOND, 981609426360740691344999861639072106, 2, 69490809710348678725736597923071784769591275419387514694139338586948360, 70463328703800545008217672123162676565183935400628861884889913886334520);
    Between(815294123582136799238856568829692, 664704507947564551741824520641648179442811778818507869635638474197);
    PrimeByDigits(FIRST, SECOND, 981609426360740691344999861639072106, 2, 69490809710348678725736597923071784769591275419387514694139338586948360, 70463328703800545008217672123162676565183935400628861884889913886334520);
  }

  lemma TopWitness(n: nat, q: nat, R: nat, a: nat, b: nat, u: nat)
    requires n == TOP && q == FIRST && R == 781764 && a == 2
    requires b == 427094198651976259540344842774561673889945192655078505504941250475370961481
    requires u == 55540832096118778044507775605005710249233119951144946814680141076505643269084
    ensures Witness(n, q, R, a, b, u)
  {
    forall p: Remainders | Closed(n, p) && LowPowers(p, 2, 4, 8) ensures p(R, b) { TopBase(n, p); }
    forall p: Remainders | Closed(n, p) && LowPowers(p, b, 50914264381064792893419427774930386716764681640450898677223111048785958120942, 35567120054725949402377397932345644502253182707296690507070292355869331561574) ensures p(q, 1) { TopPower(n, p); }
    Certified(n, q, R, a, 4, 8, b, 50914264381064792893419427774930386716764681640450898677223111048785958120942, 35567120054725949402377397932345644502253182707296690507070292355869331561574, u);
  }

  lemma TopIsPrime()
    ensures Prime(TOP)
  {
    FirstIsPrime();
    TopWitness(TOP, FIRST, 781764, 2, 427094198651976259540344842774561673889945192655078505504941250475370961481, 55540832096118778044507775605005710249233119951144946814680141076505643269084);
    PrimeByOne(TOP, FIRST, 781764, 2, 427094198651976259540344842774561673889945192655078505504941250475370961481, 55540832096118778044507775605005710249233119951144946814680141076505643269084);
  }
}
