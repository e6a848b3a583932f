/**
 * The interface texts of the web client in English and Sinhala, and the lookup `t` that
 * picks the text of a key in a language with a fallback to English and then to the key
 * itself. A language's table is the sequence of its properties in the order they are
 * written, section by section; reading a property finds the one with that key. Non-ASCII
 * characters are written as Unicode escapes.
 */
module Translations {
  import opened Nullable

  /** One `key: "text"` property of a language's table. */
  datatype Property = Property(key: string, text: string)

  /** The properties of the header. */
  const EnHeader: seq<Property> := [
    Property("login", "Login"),
    Property("signup", "Signup"),
    Property("welcome", "Welcome"),
    Property("dashboard", "Dashboard"),
    Property("settings", "Settings"),
    Property("signOut", "Sign Out")
  ]
  const SiHeader: seq<Property> := [
    Property("login", "\U{0DB4}\U{0DCA}\U{200D}\U{0DBB}\U{0DC0}\U{0DDA}\U{0DC1} \U{0DC0}\U{0DB1}\U{0DCA}\U{0DB1}"),
    Property("signup", "\U{0DBD}\U{0DD2}\U{0DBA}\U{0DCF}\U{0DB4}\U{0DAF}\U{0DD2}\U{0D82}\U{0DA0}\U{0DD2} \U{0DC0}\U{0DB1}\U{0DCA}\U{0DB1}"),
    Property("welcome", "\U{0D86}\U{0DBA}\U{0DD4}\U{0DB6}\U{0DDD}\U{0DC0}\U{0DB1}\U{0DCA}"),
    Property("dashboard", "\U{0D8B}\U{0DB4}\U{0D9A}\U{0DBB}\U{0DAB} \U{0DB4}\U{0DD4}\U{0DC0}\U{0DBB}\U{0DD4}\U{0DC0}"),
    Property("settings", "\U{0DC3}\U{0DD0}\U{0D9A}\U{0DC3}\U{0DD4}\U{0DB8}\U{0DCA}"),
    Property("signOut", "\U{0D89}\U{0DC0}\U{0DAD}\U{0DCA} \U{0DC0}\U{0DB1}\U{0DCA}\U{0DB1}")
  ]

  /** The properties of the hero section. */
  const EnHero: seq<Property> := [
    Property("heroTitle", "The free, fun, and effective way to learn a language!"),
    Property("getStarted", "GET STARTED"),
    Property("continueeLearning", "CONTINUE LEARNING"),
    Property("alreadyHaveAccount", "I ALREADY HAVE AN ACCOUNT"),
    Property("english", "ENGLISH"),
    Property("sinhala", "SINHALA"),
    Property("tamil", "TAMIL")
  ]
  const SiHero: seq<Property> := [
    Property("heroTitle", "\U{0DB7}\U{0DCF}\U{0DC2}\U{0DCF}\U{0DC0}\U{0D9A}\U{0DCA} \U{0D89}\U{0D9C}\U{0DD9}\U{0DB1} \U{0D9C}\U{0DD0}\U{0DB1}\U{0DD3}\U{0DB8}\U{0DDA} \U{0DB1}\U{0DD2}\U{0DAF}\U{0DC4}\U{0DC3}\U{0DCA}, \U{0DC0}\U{0DD2}\U{0DB1}\U{0DDD}\U{0DAF}\U{0DA2}\U{0DB1}\U{0D9A} \U{0DC3}\U{0DC4} \U{0DB5}\U{0DBD}\U{0DAF}\U{0DCF}\U{0DBA}\U{0DD3} \U{0D9A}\U{0DCA}\U{200D}\U{0DBB}\U{0DB8}\U{0DBA}!"),
    Property("getStarted", "\U{0D86}\U{0DBB}\U{0DB8}\U{0DCA}\U{0DB7} \U{0D9A}\U{0DBB}\U{0DB1}\U{0DCA}\U{0DB1}"),
    Property("continueeLearning", "\U{0D89}\U{0D9C}\U{0DD9}\U{0DB1}\U{0DD3}\U{0DB8} \U{0DAF}\U{0DD2}\U{0D9C}\U{0DA7}\U{0DB8} \U{0D9A}\U{0DBB}\U{0DB1}\U{0DCA}\U{0DB1}"),
    Property("alreadyHaveAccount", "\U{0DB8}\U{0DA7} \U{0DAF}\U{0DD0}\U{0DB1}\U{0DA7}\U{0DB8}\U{0DAD}\U{0DCA} \U{0D9C}\U{0DD2}\U{0DAB}\U{0DD4}\U{0DB8}\U{0D9A}\U{0DCA} \U{0D87}\U{0DAD}"),
    Property("english", "\U{0D89}\U{0D82}\U{0D9C}\U{0DCA}\U{200D}\U{0DBB}\U{0DD3}\U{0DC3}\U{0DD2}"),
    Property("sinhala", "\U{0DC3}\U{0DD2}\U{0D82}\U{0DC4}\U{0DBD}"),
    Property("tamil", "\U{0DAF}\U{0DD9}\U{0DB8}\U{0DC5}")
  ]

  /** The properties of the first benefit and its research note. */
  const EnFree: seq<Property> := [
    Property("benefitTitle1", "free. fun. effective."),
    Property("benefitDesc1", "Learning with zorscode academy is fun, and research shows that it works! With quick, bite-sized lessons, you'll earn points and unlock new levels while gaining real-world communication skills."),
    Property("researchWorks", "research shows that it works!")
  ]
  const SiFree: seq<Property> := [
    Property("benefitTitle1", "\U{0DB1}\U{0DD2}\U{0DAF}\U{0DC4}\U{0DC3}\U{0DCA}. \U{0DC0}\U{0DD2}\U{0DB1}\U{0DDD}\U{0DAF}\U{0DA2}\U{0DB1}\U{0D9A}. \U{0DB5}\U{0DBD}\U{0DAF}\U{0DCF}\U{0DBA}\U{0DD3}."),
    Property("benefitDesc1", "zorscode academy \U{0DC3}\U{0DB8}\U{0D9F} \U{0D89}\U{0D9C}\U{0DD9}\U{0DB1}\U{0DD3}\U{0DB8} \U{0DC0}\U{0DD2}\U{0DB1}\U{0DDD}\U{0DAF}\U{0DA2}\U{0DB1}\U{0D9A}\U{0DBA}\U{0DD2}, \U{0DC3}\U{0DC4} \U{0DB4}\U{0DBB}\U{0DCA}\U{0DBA}\U{0DDA}\U{0DC2}\U{0DAB}\U{0DC0}\U{0DBD}\U{0DD2}\U{0DB1}\U{0DCA} \U{0DB4}\U{0DD9}\U{0DB1}\U{0DCA}\U{0DB1}\U{0DD4}\U{0DB8}\U{0DCA} \U{0D9A}\U{0DBB}\U{0DB1}\U{0DCA}\U{0DB1}\U{0DDA} \U{0D91}\U{0DBA} \U{0D9A}\U{0DCA}\U{200D}\U{0DBB}\U{0DD2}\U{0DBA}\U{0DCF} \U{0D9A}\U{0DBB}\U{0DB1} \U{0DB6}\U{0DC0}\U{0DBA}\U{0DD2}! \U{0D89}\U{0D9A}\U{0DCA}\U{0DB8}\U{0DB1}\U{0DCA}, \U{0D9A}\U{0DD4}\U{0DA9}\U{0DCF} \U{0DB4}\U{0DCF}\U{0DA9}\U{0DB8}\U{0DCA} \U{0DC3}\U{0DB8}\U{0D9F}, \U{0D94}\U{0DB6} \U{0DBD}\U{0D9A}\U{0DD4}\U{0DAB}\U{0DD4} \U{0DBD}\U{0DB6}\U{0DCF} \U{0D9C}\U{0DB1}\U{0DD2}\U{0DB8}\U{0DD2}\U{0DB1}\U{0DCA} \U{0DB1}\U{0DC0} \U{0DB8}\U{0DA7}\U{0DCA}\U{0DA7}\U{0DB8}\U{0DCA} \U{0D85}\U{0D9C}\U{0DD4}\U{0DC5}\U{0DD4} \U{0DC4}\U{0DBB}\U{0DD2}\U{0DB8}\U{0DD2}\U{0DB1}\U{0DCA} \U{0DC3}\U{0DD0}\U{0DB6}\U{0DD1}-\U{0DBD}\U{0DDD}\U{0D9A} \U{0DC3}\U{0DB1}\U{0DCA}\U{0DB1}\U{0DD2}\U{0DC0}\U{0DDA}\U{0DAF}\U{0DB1} \U{0D9A}\U{0DD4}\U{0DC3}\U{0DBD}\U{0DAD}\U{0DCF} \U{0DBD}\U{0DB6}\U{0DCF} \U{0D9C}\U{0DB1}\U{0DD3}\U{0DC0}\U{0DD2}."),
    Property("researchWorks", "\U{0DB4}\U{0DBB}\U{0DCA}\U{0DBA}\U{0DDA}\U{0DC2}\U{0DAB}\U{0DC0}\U{0DBD}\U{0DD2}\U{0DB1}\U{0DCA} \U{0DB4}\U{0DD9}\U{0DB1}\U{0DCA}\U{0DB1}\U{0DD4}\U{0DB8}\U{0DCA} \U{0D9A}\U{0DBB}\U{0DB1}\U{0DCA}\U{0DB1}\U{0DDA} \U{0D91}\U{0DBA} \U{0D9A}\U{0DCA}\U{200D}\U{0DBB}\U{0DD2}\U{0DBA}\U{0DCF} \U{0D9A}\U{0DBB}\U{0DB1} \U{0DB6}\U{0DC0}\U{0DBA}\U{0DD2}!")
  ]

  /** The properties of the second benefit. */
  const EnScience: seq<Property> := [
    Property("benefitTitle2", "backed by science"),
    Property("benefitDesc2", "We use a combination of research-backed teaching methods and delightful content to create courses that effectively teach reading, writing, listening, and speaking skills!")
  ]
  const SiScience: seq<Property> := [
    Property("benefitTitle2", "\U{0DC0}\U{0DD2}\U{0DAF}\U{0DCA}\U{200D}\U{0DBA}\U{0DCF}\U{0DC0} \U{0DB8}\U{0D9C}\U{0DD2}\U{0DB1}\U{0DCA} \U{0DC3}\U{0DC4}\U{0DCF}\U{0DBA}"),
    Property("benefitDesc2", "\U{0D85}\U{0DB4}\U{0DD2} \U{0DB4}\U{0DBB}\U{0DCA}\U{0DBA}\U{0DDA}\U{0DC2}\U{0DAB}-\U{0DB4}\U{0DCF}\U{0DAF}\U{0D9A} \U{0D9C}\U{0DD4}\U{0DBB}\U{0DD4} \U{0D9A}\U{0DCA}\U{200D}\U{0DBB}\U{0DB8} \U{0DC3}\U{0DC4} \U{0DB4}\U{0DCA}\U{200D}\U{0DBB}\U{0DD2}\U{0DBA}\U{0DA2}\U{0DB1}\U{0D9A} \U{0D85}\U{0DB1}\U{0DCA}\U{0DAD}\U{0DBB}\U{0DCA}\U{0D9C}\U{0DAD}\U{0DBA}\U{0DDA} \U{0DC3}\U{0D82}\U{0DBA}\U{0DDD}\U{0DA2}\U{0DB1}\U{0DBA}\U{0D9A}\U{0DCA} \U{0DB7}\U{0DCF}\U{0DC0}\U{0DD2}\U{0DAD}\U{0DCF} \U{0D9A}\U{0DBB}\U{0DB8}\U{0DD2}\U{0DB1}\U{0DCA} \U{0D9A}\U{0DD2}\U{0DBA}\U{0DC0}\U{0DD3}\U{0DB8}, \U{0DBD}\U{0DD2}\U{0DC0}\U{0DD3}\U{0DB8}, \U{0D87}\U{0DC3}\U{0DD3}\U{0DB8} \U{0DC3}\U{0DC4} \U{0D9A}\U{0DAD}\U{0DCF} \U{0D9A}\U{0DD2}\U{0DBB}\U{0DD3}\U{0DB8}\U{0DDA} \U{0D9A}\U{0DD4}\U{0DC3}\U{0DBD}\U{0DAD}\U{0DCF} \U{0DB5}\U{0DBD}\U{0DAF}\U{0DCF}\U{0DBA}\U{0DD3} \U{0DBD}\U{0DD9}\U{0DC3} \U{0D89}\U{0D9C}\U{0DD0}\U{0DB1}\U{0DCA}\U{0DC0}\U{0DB1} \U{0DB4}\U{0DCF}\U{0DA8}\U{0DB8}\U{0DCF}\U{0DBD}\U{0DCF} \U{0DB1}\U{0DD2}\U{0DBB}\U{0DCA}\U{0DB8}\U{0DCF}\U{0DAB}\U{0DBA} \U{0D9A}\U{0DBB}\U{0DB8}\U{0DD4}!")
  ]

  /** The properties of the third benefit. */
  const EnMotivation: seq<Property> := [
    Property("benefitTitle3", "stay motivated"),
    Property("benefitDesc3", "We make it easy to form a habit of language learning with game-like features, fun challenges, and reminders from our friendly mascot, Duo the owl.")
  ]
  const SiMotivation: seq<Property> := [
    Property("benefitTitle3", "\U{0D85}\U{0DB7}\U{0DD2}\U{0DB4}\U{0DCA}\U{200D}\U{0DBB}\U{0DDA}\U{0DBB}\U{0DAB}\U{0DBA} \U{0DB4}\U{0DC0}\U{0DAD}\U{0DCA}\U{0DC0}\U{0DCF} \U{0D9C}\U{0DB1}\U{0DCA}\U{0DB1}"),
    Property("benefitDesc3", "\U{0D9A}\U{0DCA}\U{200D}\U{0DBB}\U{0DD3}\U{0DA9}\U{0DCF} \U{0DC0}\U{0DD0}\U{0DB1}\U{0DD2} \U{0DC0}\U{0DD2}\U{0DC1}\U{0DDA}\U{0DC2}\U{0DCF}\U{0D82}\U{0D9C}, \U{0DC0}\U{0DD2}\U{0DB1}\U{0DDD}\U{0DAF}\U{0DA2}\U{0DB1}\U{0D9A} \U{0D85}\U{0DB7}\U{0DD2}\U{0DBA}\U{0DDD}\U{0D9C} \U{0DC3}\U{0DC4} \U{0D85}\U{0DB4}\U{0D9C}\U{0DDA} \U{0DB8}\U{0DD2}\U{0DAD}\U{0DCA}\U{200D}\U{0DBB}\U{0DC1}\U{0DD3}\U{0DBD}\U{0DD3} \U{0DC0}\U{0DD9}\U{0DC3}\U{0DCA}\U{0DB8}\U{0DD4}\U{0DC4}\U{0DD4}\U{0DAB}\U{0DD4} \U{0DC0}\U{0DB1} Duo the owl \U{0D9C}\U{0DDA} \U{0DB8}\U{0DAD}\U{0D9A}\U{0DCA} \U{0D9A}\U{0DD2}\U{0DBB}\U{0DD3}\U{0DB8}\U{0DCA} \U{0DC3}\U{0DB8}\U{0D9F} \U{0DB7}\U{0DCF}\U{0DC2}\U{0DCF} \U{0D89}\U{0D9C}\U{0DD9}\U{0DB1}\U{0DD3}\U{0DB8}\U{0DDA} \U{0DB4}\U{0DD4}\U{0DBB}\U{0DD4}\U{0DAF}\U{0DCA}\U{0DAF}\U{0D9A}\U{0DCA} \U{0DC3}\U{0DD1}\U{0DAF}\U{0DD3}\U{0DB8} \U{0D85}\U{0DB4}\U{0DD2} \U{0DB4}\U{0DC4}\U{0DC3}\U{0DD4} \U{0D9A}\U{0DBB}\U{0DB8}\U{0DD4}.")
  ]

  /** The properties of the fourth benefit. */
  const EnFun: seq<Property> := [
    Property("benefitTitle4", "making learning fun."),
    Property("benefitDesc4", "It's hard to stay motivated when learning online, so we made ZorsCode Academy so fun that people would prefer picking up new skills over playing a game.")
  ]
  const SiFun: seq<Property> := [
    Property("benefitTitle4", "\U{0D89}\U{0D9C}\U{0DD9}\U{0DB1}\U{0DD3}\U{0DB8} \U{0DC0}\U{0DD2}\U{0DB1}\U{0DDD}\U{0DAF}\U{0DA2}\U{0DB1}\U{0D9A} \U{0D9A}\U{0DD2}\U{0DBB}\U{0DD3}\U{0DB8}."),
    Property("benefitDesc4", "\U{0D85}\U{0DB1}\U{0DCA}\U{0DAD}\U{0DBB}\U{0DCA}\U{0DA2}\U{0DCF}\U{0DBD}\U{0DBA} \U{0DC4}\U{0DBB}\U{0DC4}\U{0DCF} \U{0D89}\U{0D9C}\U{0DD9}\U{0DB1} \U{0D9C}\U{0DD0}\U{0DB1}\U{0DD3}\U{0DB8}\U{0DDA}\U{0DAF}\U{0DD3} \U{0D85}\U{0DB7}\U{0DD2}\U{0DB4}\U{0DCA}\U{200D}\U{0DBB}\U{0DDA}\U{0DBB}\U{0DAB}\U{0DBA} \U{0DB4}\U{0DC0}\U{0DAD}\U{0DCA}\U{0DC0}\U{0DCF} \U{0D9C}\U{0DD0}\U{0DB1}\U{0DD3}\U{0DB8} \U{0D85}\U{0DB4}\U{0DC4}\U{0DC3}\U{0DD4}\U{0DBA}\U{0DD2}, \U{0D91}\U{0DB6}\U{0DD0}\U{0DC0}\U{0DD2}\U{0DB1}\U{0DCA} \U{0D85}\U{0DB4}\U{0DD2} ZorsCode Academy \U{0D91}\U{0DAD}\U{0DBB}\U{0DB8}\U{0DCA} \U{0DC0}\U{0DD2}\U{0DB1}\U{0DDD}\U{0DAF}\U{0DA2}\U{0DB1}\U{0D9A} \U{0D9A}\U{0DC5}\U{0DDA} \U{0DB8}\U{0DD2}\U{0DB1}\U{0DD2}\U{0DC3}\U{0DD4}\U{0DB1}\U{0DCA} \U{0D9A}\U{0DCA}\U{200D}\U{0DBB}\U{0DD3}\U{0DA9}\U{0DCF}\U{0DC0}\U{0D9A}\U{0DA7} \U{0DC0}\U{0DA9}\U{0DCF} \U{0DB1}\U{0DC0} \U{0D9A}\U{0DD4}\U{0DC3}\U{0DBD}\U{0DAD}\U{0DCF} \U{0D89}\U{0D9C}\U{0DD9}\U{0DB1} \U{0D9C}\U{0DD0}\U{0DB1}\U{0DD3}\U{0DB8}\U{0DA7} \U{0D9A}\U{0DD0}\U{0DB8}\U{0DAD}\U{0DD2} \U{0DC0}\U{0DB1} \U{0DB4}\U{0DBB}\U{0DD2}\U{0DAF}\U{0DD2}\U{0DBA}.")
  ]

  /** The properties of the get-started section. */
  const EnGetStarted: seq<Property> := [
    Property("getStartedTitle", "learn a language with zorscode academy")
  ]
  const SiGetStarted: seq<Property> := [
    Property("getStartedTitle", "zorscode academy \U{0DC3}\U{0DB8}\U{0D9F} \U{0DB7}\U{0DCF}\U{0DC2}\U{0DCF}\U{0DC0}\U{0D9A}\U{0DCA} \U{0D89}\U{0D9C}\U{0DD9}\U{0DB1} \U{0D9C}\U{0DB1}\U{0DCA}\U{0DB1}")
  ]

  /** The properties of the footer's description and quick links. */
  const EnQuickLinks: seq<Property> := [
    Property("footerDesc", "The free, fun, and effective way to learn languages. Join millions of learners worldwide on their language journey."),
    Property("quickLinks", "Quick Links"),
    Property("home", "Home"),
    Property("lessons", "Lessons"),
    Property("aboutUs", "About Us"),
    Property("contact", "Contact"),
    Property("blog", "Blog")
  ]
  const SiQuickLinks: seq<Property> := [
    Property("footerDesc", "\U{0DB7}\U{0DCF}\U{0DC2}\U{0DCF} \U{0D89}\U{0D9C}\U{0DD9}\U{0DB1} \U{0D9C}\U{0DD0}\U{0DB1}\U{0DD3}\U{0DB8}\U{0DDA} \U{0DB1}\U{0DD2}\U{0DAF}\U{0DC4}\U{0DC3}\U{0DCA}, \U{0DC0}\U{0DD2}\U{0DB1}\U{0DDD}\U{0DAF}\U{0DA2}\U{0DB1}\U{0D9A} \U{0DC3}\U{0DC4} \U{0DB5}\U{0DBD}\U{0DAF}\U{0DCF}\U{0DBA}\U{0DD3} \U{0D9A}\U{0DCA}\U{200D}\U{0DBB}\U{0DB8}\U{0DBA}. \U{0D94}\U{0DC0}\U{0DD4}\U{0DB1}\U{0DCA}\U{0D9C}\U{0DDA} \U{0DB7}\U{0DCF}\U{0DC2}\U{0DCF} \U{0D9C}\U{0DB8}\U{0DB1}\U{0DDA}\U{0DAF}\U{0DD3} \U{0DBD}\U{0DDC}\U{0DC0} \U{0DB4}\U{0DD4}\U{0DBB}\U{0DCF} \U{0DC3}\U{0DD2}\U{0DA7}\U{0DD2}\U{0DB1} \U{0DB8}\U{0DD2}\U{0DBD}\U{0DD2}\U{0DBA}\U{0DB1} \U{0D9C}\U{0DAB}\U{0DB1}\U{0DCA} \U{0D89}\U{0D9C}\U{0DD9}\U{0DB1}\U{0DD4}\U{0DB8}\U{0DCA}\U{0D9A}\U{0DBB}\U{0DD4}\U{0DC0}\U{0DB1}\U{0DCA} \U{0DC3}\U{0DB8}\U{0D9F} \U{0D91}\U{0D9A}\U{0DAD}\U{0DD4} \U{0DC0}\U{0DB1}\U{0DCA}\U{0DB1}."),
    Property("quickLinks", "\U{0D89}\U{0D9A}\U{0DCA}\U{0DB8}\U{0DB1}\U{0DCA} \U{0DC3}\U{0DB6}\U{0DD0}\U{0DB3}\U{0DD2}"),
    Property("home", "\U{0DB8}\U{0DD4}\U{0DBD}\U{0DCA} \U{0DB4}\U{0DD2}\U{0DA7}\U{0DD4}\U{0DC0}"),
    Property("lessons", "\U{0DB4}\U{0DCF}\U{0DA9}\U{0DB8}\U{0DCA}"),
    Property("aboutUs", "\U{0D85}\U{0DB4} \U{0D9C}\U{0DD0}\U{0DB1}"),
    Property("contact", "\U{0DC3}\U{0DB8}\U{0DCA}\U{0DB6}\U{0DB1}\U{0DCA}\U{0DB0}\U{0DAD}\U{0DCF}"),
    Property("blog", "\U{0DB6}\U{0DCA}\U{0DBD}\U{0DDC}\U{0D9C}\U{0DCA}")
  ]

  /** The properties of the footer's learning links. */
  const EnLearn: seq<Property> := [
    Property("learn", "Learn"),
    Property("englishLessons", "English Lessons"),
    Property("sinhalaLessons", "Sinhala Lessons"),
    Property("tamilLessons", "Tamil Lessons"),
    Property("practiceExercises", "Practice Exercises"),
    Property("grammarGuide", "Grammar Guide")
  ]
  const SiLearn: seq<Property> := [
    Property("learn", "\U{0D89}\U{0D9C}\U{0DD9}\U{0DB1} \U{0D9C}\U{0DB1}\U{0DCA}\U{0DB1}"),
    Property("englishLessons", "\U{0D89}\U{0D82}\U{0D9C}\U{0DCA}\U{200D}\U{0DBB}\U{0DD3}\U{0DC3}\U{0DD2} \U{0DB4}\U{0DCF}\U{0DA9}\U{0DB8}\U{0DCA}"),
    Property("sinhalaLessons", "\U{0DC3}\U{0DD2}\U{0D82}\U{0DC4}\U{0DBD} \U{0DB4}\U{0DCF}\U{0DA9}\U{0DB8}\U{0DCA}"),
    Property("tamilLessons", "\U{0DAF}\U{0DD9}\U{0DB8}\U{0DC5} \U{0DB4}\U{0DCF}\U{0DA9}\U{0DB8}\U{0DCA}"),
    Property("practiceExercises", "\U{0D85}\U{0DB7}\U{0DCA}\U{200D}\U{0DBA}\U{0DCF}\U{0DC3} \U{0DC0}\U{0DCA}\U{200D}\U{0DBA}\U{0DCF}\U{0DBA}\U{0DCF}\U{0DB8}"),
    Property("grammarGuide", "\U{0DC0}\U{0DCA}\U{200D}\U{0DBA}\U{0DCF}\U{0D9A}\U{0DBB}\U{0DAB} \U{0DB8}\U{0DCF}\U{0DBB}\U{0DCA}\U{0D9C}\U{0DDD}\U{0DB4}\U{0DAF}\U{0DDA}\U{0DC1}\U{0DBA}")
  ]

  /** The properties of the footer's connect links. */
  const EnConnect: seq<Property> := [
    Property("connect", "Connect"),
    Property("supervisorPortal", "Supervisor Portal"),
    Property("lessonManagement", "Lesson Management & Quality Control"),
    Property("apply", "Apply"),
    Property("educatorsAdministrators", "Educators & Administrators")
  ]
  const SiConnect: seq<Property> := [
    Property("connect", "\U{0DC3}\U{0DB8}\U{0DCA}\U{0DB6}\U{0DB1}\U{0DCA}\U{0DB0} \U{0DC0}\U{0DB1}\U{0DCA}\U{0DB1}"),
    Property("supervisorPortal", "\U{0D85}\U{0DB0}\U{0DD3}\U{0D9A}\U{0DCA}\U{0DC2}\U{0D9A} \U{0DB4}\U{0DDD}\U{0DBB}\U{0DCA}\U{0DA7}\U{0DBD}\U{0DBA}"),
    Property("lessonManagement", "\U{0DB4}\U{0DCF}\U{0DA9}\U{0DB8}\U{0DCA} \U{0D9A}\U{0DC5}\U{0DB8}\U{0DB1}\U{0DCF}\U{0D9A}\U{0DBB}\U{0DAB}\U{0DBA} \U{0DC3}\U{0DC4} \U{0D9C}\U{0DD4}\U{0DAB}\U{0DCF}\U{0DAD}\U{0DCA}\U{0DB8}\U{0D9A} \U{0DB4}\U{0DCF}\U{0DBD}\U{0DB1}\U{0DBA}"),
    Property("apply", "\U{0D85}\U{0DBA}\U{0DAF}\U{0DD4}\U{0DB8}\U{0DCA} \U{0D9A}\U{0DBB}\U{0DB1}\U{0DCA}\U{0DB1}"),
    Property("educatorsAdministrators", "\U{0D85}\U{0DB0}\U{0DCA}\U{200D}\U{0DBA}\U{0DCF}\U{0DB4}\U{0DB1}\U{0DC0}\U{0DDA}\U{0DAF}\U{0DD3}\U{0DB1}\U{0DCA} \U{0DC3}\U{0DC4} \U{0DB4}\U{0DBB}\U{0DD2}\U{0DB4}\U{0DCF}\U{0DBD}\U{0D9A}\U{0DBA}\U{0DB1}\U{0DCA}")
  ]

  /** The properties of the footer's newsletter form. */
  const EnNewsletter: seq<Property> := [
    Property("stayUpdated", "Stay Updated!"),
    Property("newsletterDesc", "Get the latest lessons and tips delivered to your inbox."),
    Property("enterEmail", "Enter your email"),
    Property("subscribe", "Subscribe")
  ]
  const SiNewsletter: seq<Property> := [
    Property("stayUpdated", "\U{0DBA}\U{0DCF}\U{0DC0}\U{0DAD}\U{0DCA}\U{0D9A}\U{0DCF}\U{0DBD}\U{0DD3}\U{0DB1}\U{0DC0} \U{0DC3}\U{0DD2}\U{0DA7}\U{0DD2}\U{0DB1}\U{0DCA}\U{0DB1}!"),
    Property("newsletterDesc", "\U{0DB1}\U{0DC0}\U{0DAD}\U{0DB8} \U{0DB4}\U{0DCF}\U{0DA9}\U{0DB8}\U{0DCA} \U{0DC3}\U{0DC4} \U{0D8B}\U{0DB4}\U{0DAF}\U{0DD9}\U{0DC3}\U{0DCA} \U{0D94}\U{0DB6}\U{0D9C}\U{0DDA} \U{0DBD}\U{0DD2}\U{0DB4}\U{0DD2}\U{0DB1}\U{0DBA} \U{0DC0}\U{0DD9}\U{0DAD} \U{0DBD}\U{0DB6}\U{0DCF} \U{0D9C}\U{0DB1}\U{0DCA}\U{0DB1}."),
    Property("enterEmail", "\U{0D94}\U{0DB6}\U{0D9C}\U{0DDA} \U{0DC0}\U{0DD2}\U{0DAF}\U{0DCA}\U{200D}\U{0DBA}\U{0DD4}\U{0DAD}\U{0DCA} \U{0DAD}\U{0DD0}\U{0DB4}\U{0DD1}\U{0DBD} \U{0D87}\U{0DAD}\U{0DD4}\U{0DC5}\U{0DAD}\U{0DCA} \U{0D9A}\U{0DBB}\U{0DB1}\U{0DCA}\U{0DB1}"),
    Property("subscribe", "\U{0DAF}\U{0DCF}\U{0DBA}\U{0D9A} \U{0DC0}\U{0DB1}\U{0DCA}\U{0DB1}")
  ]

  /** The properties of the footer's legal line and policies. */
  const EnLegal: seq<Property> := [
    Property("allRightsReserved", "\U{00A9} 2024 ZorsCode Academy. All rights reserved."),
    Property("privacyPolicy", "Privacy Policy"),
    Property("termsOfService", "Terms of Service"),
    Property("cookiePolicy", "Cookie Policy")
  ]
  const SiLegal: seq<Property> := [
    Property("allRightsReserved", "\U{00A9} 2024 ZorsCode Academy. \U{0DC3}\U{0DD2}\U{0DBA}\U{0DBD}\U{0DD4}\U{0DB8} \U{0DC4}\U{0DD2}\U{0DB8}\U{0DD2}\U{0D9A}\U{0DB8}\U{0DCA} \U{0D86}\U{0DBB}\U{0D9A}\U{0DCA}\U{0DC2}\U{0DD2}\U{0DAD}\U{0DBA}\U{0DD2}."),
    Property("privacyPolicy", "\U{0DB4}\U{0DDE}\U{0DAF}\U{0DCA}\U{0D9C}\U{0DBD}\U{0DD2}\U{0D9A}\U{0DAD}\U{0DCA}\U{0DC0} \U{0DB4}\U{0DCA}\U{200D}\U{0DBB}\U{0DAD}\U{0DD2}\U{0DB4}\U{0DAD}\U{0DCA}\U{0DAD}\U{0DD2}\U{0DBA}"),
    Property("termsOfService", "\U{0DC3}\U{0DDA}\U{0DC0}\U{0DCF} \U{0DB1}\U{0DD2}\U{0DBA}\U{0DB8}\U{0DBA}\U{0DB1}\U{0DCA}"),
    Property("cookiePolicy", "\U{0D9A}\U{0DD4}\U{0D9A}\U{0DD3} \U{0DB4}\U{0DCA}\U{200D}\U{0DBB}\U{0DAD}\U{0DD2}\U{0DB4}\U{0DAD}\U{0DCA}\U{0DAD}\U{0DD2}\U{0DBA}")
  ]

  /** The properties above the footer, section by section. */
  const EnPage: seq<Property> := EnHeader + EnHero + EnFree + EnScience + EnMotivation + EnFun + EnGetStarted
  const SiPage: seq<Property> := SiHeader + SiHero + SiFree + SiScience + SiMotivation + SiFun + SiGetStarted

  /** The properties of the footer, column by column. */
  const EnFooter: seq<Property> := EnQuickLinks + EnLearn + EnConnect + EnNewsletter + EnLegal
  const SiFooter: seq<Property> := SiQuickLinks + SiLearn + SiConnect + SiNewsletter + SiLegal

  /** `translations.en`. */
  const En: seq<Property> := EnPage + EnFooter

  /** `translations.si`. */
  const Si: seq<Property> := SiPage + SiFooter

  /** The `translations` object: a table per language. */
  datatype Locales = Locales(en: seq<Property>, si: seq<Property>)

  /** The tables the client ships. */
  const Shipped: Locales := Locales(En, Si)

  /** `table[key]`: the text of the property named `key`, `undefined` (`None`) when there is none. */
  function Get(table: seq<Property>, key: string): (r: Option<string>)
    ensures r.None? <==> forall i :: 0 <= i < |table| ==> table[i].key != key
    ensures r.Some? ==> exists i :: 0 <= i < |table| && table[i] == Property(key, r.value)
  {
    if table == [] then None
    else if table[0].key == key then Some(table[0].text)
    else
      var rest := Get(table[1..], key);
      assert forall i :: 1 <= i < |table| ==> table[i] == table[1..][i - 1];
      rest
  }

  /** The keys of a table, in order. */
  function Keys(table: seq<Property>): (r: seq<string>)
    ensures |r| == |table| && forall i :: 0 <= i < |table| ==> r[i] == table[i].key
  {
    seq(|table|, i requires 0 <= i < |table| => table[i].key)
  }

  /** No property of the table has an empty text. */
  predicate NonEmptyTexts(table: seq<Property>) {
    forall i :: 0 <= i < |table| ==> table[i].text != ""
  }

  /** An English and a Sinhala table that translate the same keys, in the same order, and leave no text empty. */
  predicate Agree(en: seq<Property>, si: seq<Property>) {
    Keys(en) == Keys(si) && NonEmptyTexts(en) && NonEmptyTexts(si)
  }

  /** Sections that agree make up tables that agree. */
  lemma {:induction false} AgreeAppend(en: seq<Property>, en': seq<Property>, si: seq<Property>, si': seq<Property>)
    requires Agree(en, si) && Agree(en', si')
    ensures Agree(en + en', si + si')
  {
    assert |en| == |Keys(en)| == |Keys(si)| == |si|;
    forall i | 0 <= i < |en + en'|
      ensures (en + en')[i].key == (si + si')[i].key
    {
      if i < |en| {
        assert Keys(en)[i] == Keys(si)[i];
      } else {
        assert Keys(en')[i - |en|] == Keys(si')[i - |en|];
      }
    }
  }

  /** The properties of the header agree in the two languages. */
  lemma HeaderAgrees()
    ensures Keys(EnHeader) == Keys(SiHeader) && NonEmptyTexts(EnHeader) && NonEmptyTexts(SiHeader)
  {
  }

  /** The properties of the hero section agree in the two languages. */
  lemma HeroAgrees()
    ensures Keys(EnHero) == Keys(SiHero) && NonEmptyTexts(EnHero) && NonEmptyTexts(SiHero)
  {
  }

  /** The properties of the first benefit and its research note agree in the two languages. */
  lemma FreeAgrees()
    ensures Keys(EnFree) == Keys(SiFree) && NonEmptyTexts(EnFree) && NonEmptyTexts(SiFree)
  {
  }

  /** The properties of the second benefit agree in the two languages. */
  lemma ScienceAgrees()
    ensures Keys(EnScience) == Keys(SiScience) && NonEmptyTexts(EnScience) && NonEmptyTexts(SiScience)
  {
  }

  /** The properties of the third benefit agree in the two languages. */
  lemma MotivationAgrees()
    ensures Keys(EnMotivation) == Keys(SiMotivation) && NonEmptyTexts(EnMotivation) && NonEmptyTexts(SiMotivation)
  {
  }

  /** The properties of the fourth benefit agree in the two languages. */
  lemma FunAgrees()
    ensures Keys(EnFun) == Keys(SiFun) && NonEmptyTexts(EnFun) && NonEmptyTexts(SiFun)
  {
  }

  /** The properties of the get-started section agree in the two languages. */
  lemma GetStartedAgrees()
    ensures Keys(EnGetStarted) == Keys(SiGetStarted) && NonEmptyTexts(EnGetStarted) && NonEmptyTexts(SiGetStarted)
  {
  }

  /** The properties of the footer's description and quick links agree in the two languages. */
  lemma QuickLinksAgrees()
    ensures Keys(EnQuickLinks) == Keys(SiQuickLinks) && NonEmptyTexts(EnQuickLinks) && NonEmptyTexts(SiQuickLinks)
  {
  }

  /** The properties of the footer's learning links agree in the two languages. */
  lemma LearnAgrees()
    ensures Keys(EnLearn) == Keys(SiLearn) && NonEmptyTexts(EnLearn) && NonEmptyTexts(SiLearn)
  {
  }

  /** The properties of the footer's connect links agree in the two languages. */
  lemma ConnectAgrees()
    ensures Keys(EnConnect) == Keys(SiConnect) && NonEmptyTexts(EnConnect) && NonEmptyTexts(SiConnect)
  {
  }

  /** The properties of the footer's newsletter form agree in the two languages. */
  lemma NewsletterAgrees()
    ensures Keys(EnNewsletter) == Keys(SiNewsletter) && NonEmptyTexts(EnNewsletter) && NonEmptyTexts(SiNewsletter)
  {
  }

  /** The properties of the footer's legal line and policies agree in the two languages. */
  lemma LegalAgrees()
    ensures Keys(EnLegal) == Keys(SiLegal) && NonEmptyTexts(EnLegal) && NonEmptyTexts(SiLegal)
  {
  }

  /** The properties above the footer agree in the two languages. */
  lemma PageAgrees()
    ensures Agree(EnPage, SiPage)
  {
    HeaderAgrees();
    HeroAgrees();
    FreeAgrees();
    ScienceAgrees();
    MotivationAgrees();
    FunAgrees();
    GetStartedAgrees();
    AgreeAppend(EnHeader, EnHero, SiHeader, SiHero);
    AgreeAppend(EnHeader + EnHero, EnFree, SiHeader + SiHero, SiFree);
    AgreeAppend(EnHeader + EnHero + EnFree, EnScience, SiHeader + SiHero + SiFree, SiScience);
    AgreeAppend(EnHeader + EnHero + EnFree + EnScience, EnMotivation, SiHeader + SiHero + SiFree + SiScience, SiMotivation);
    AgreeAppend(EnHeader + EnHero + EnFree + EnScience + EnMotivation, EnFun, SiHeader + SiHero + SiFree + SiScience + SiMotivation, SiFun);
    AgreeAppend(EnHeader + EnHero + EnFree + EnScience + EnMotivation + EnFun, EnGetStarted, SiHeader + SiHero + SiFree + SiScience + SiMotivation + SiFun, SiGetStarted);
  }

  /** The footer's properties agree in the two languages. */
  lemma FooterAgrees()
    ensures Agree(EnFooter, SiFooter)
  {
    QuickLinksAgrees();
    LearnAgrees();
    ConnectAgrees();
    NewsletterAgrees();
    LegalAgrees();
    AgreeAppend(EnQuickLinks, EnLearn, SiQuickLinks, SiLearn);
    AgreeAppend(EnQuickLinks + EnLearn, EnConnect, SiQuickLinks + SiLearn, SiConnect);
    AgreeAppend(EnQuickLinks + EnLearn + EnConnect, EnNewsletter, SiQuickLinks + SiLearn + SiConnect, SiNewsletter);
    AgreeAppend(EnQuickLinks + EnLearn + EnConnect + EnNewsletter, EnLegal, SiQuickLinks + SiLearn + SiConnect + SiNewsletter, SiLegal);
  }

  /** In the shipped tables both languages translate the same keys, in the same order, and no text is empty. */
  lemma ShippedTablesAgree()
    ensures Agree(Shipped.en, Shipped.si)
  {
    PageAgrees();
    FooterAgrees();
    AgreeAppend(EnPage, EnFooter, SiPage, SiFooter);
  }

  /** The two languages of the table. */
  predicate Known(language: string) {
    language == "en" || language == "si"
  }

  /** `translations[language]`: the table of a language; any other language has none. */
  function TableOf(tr: Locales, language: string): (r: Option<seq<Property>>)
    ensures r.Some? <==> Known(language)
    ensures language == "en" ==> r == Some(tr.en)
    ensures language == "si" ==> r == Some(tr.si)
  {
    if language == "en" then Some(tr.en)
    else if language == "si" then Some(tr.si)
    else None
  }

  /** `table[key]` is truthy: the key is present and its text is not empty. */
  predicate Truthy(table: seq<Property>, key: string) {
    Get(table, key).Some? && Get(table, key).value != ""
  }

  /**
   * `t(key, language)`: the language's text when it is truthy, else the English text when
   * that is truthy, else the key. For a language outside the table the lookup throws a
   * TypeError, which is `None`.
   */
  function T(tr: Locales, key: string, language: string): (r: Option<string>)
    ensures !Known(language) ==> r.None?
    ensures Known(language) && Truthy(TableOf(tr, language).value, key) ==> r == Get(TableOf(tr, language).value, key)
    ensures Known(language) && !Truthy(TableOf(tr, language).value, key) && Truthy(tr.en, key) ==> r == Get(tr.en, key)
    ensures Known(language) && !Truthy(TableOf(tr, language).value, key) && !Truthy(tr.en, key) ==> r == Some(key)
  {
    match TableOf(tr, language)
    case None => None
    case Some(table) =>
      if Truthy(table, key) then Get(table, key)
      else if Truthy(tr.en, key) then Get(tr.en, key)
      else Some(key)
  }

  /** `t(key)`: the language defaults to English, so the lookup always yields a text. */
  function TDefault(tr: Locales, key: string): (r: string)
    ensures Truthy(tr.en, key) ==> r == Get(tr.en, key).value
    ensures !Truthy(tr.en, key) ==> r == key
  {
    T(tr, key, "en").value
  }

  /** Tables with the same keys have a property for the same keys. */
  lemma {:induction false} SameKeysSameDomain(a: seq<Property>, b: seq<Property>, key: string)
    requires Keys(a) == Keys(b)
    ensures Get(a, key).Some? <==> Get(b, key).Some?
  {
    if a != [] {
      assert Keys(a[1..]) == Keys(b[1..]) by {
        assert |a| == |Keys(a)| == |Keys(b)| == |b|;
        forall i | 0 <= i < |a| - 1
          ensures a[1..][i].key == b[1..][i].key
        {
          assert Keys(a)[i + 1] == Keys(b)[i + 1];
        }
      }
      assert a[0].key == Keys(a)[0] == Keys(b)[0] == b[0].key;
      SameKeysSameDomain(a[1..], b[1..], key);
    }
  }

  /** A text found in a table without empty texts is not empty. */
  lemma FoundTextNonEmpty(table: seq<Property>, key: string)
    requires NonEmptyTexts(table) && Get(table, key).Some?
    ensures Get(table, key).value != ""
  {
    var i :| 0 <= i < |table| && table[i] == Property(key, Get(table, key).value);
  }

  /**
   * When the languages agree, a key of the tables gets the chosen language's own text, and
   * any other key comes back unchanged: the English fallback is never taken.
   */
  lemma LookupOutcome(tr: Locales, key: string, language: string)
    requires Known(language) && Agree(tr.en, tr.si)
    ensures Get(tr.en, key).Some? ==> T(tr, key, language) == Get(TableOf(tr, language).value, key)
    ensures Get(tr.en, key).None? ==> T(tr, key, language) == Some(key)
  {
    SameKeysSameDomain(tr.en, tr.si, key);
    if Get(tr.en, key).Some? {
      FoundTextNonEmpty(tr.en, key);
      FoundTextNonEmpty(tr.si, key);
    }
  }

}
