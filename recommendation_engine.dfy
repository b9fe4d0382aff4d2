/** backend/services/recommendation_engine.py: the fixed recommendation table
    looked up by domain, falling back to the general entries. The timestamp
    is an input. */
module RecommendationEngine {

  datatype Course = Course(title: string, kind: string, difficulty: string, url: string, description: string)

  datatype Recommendations = Recommendations(recommendations: seq<Course>, domain: string, userId: int,
                                             generatedAt: string)

  const DataScience: seq<Course> := [
    Course("Introduction to Pandas", "tutorial", "beginner", "#", "Learn data manipulation with Pandas library"),
    Course("Machine Learning Basics", "course", "intermediate", "#", "Fundamental concepts of machine learning")]

  const AppDevelopment: seq<Course> := [
    Course("React Fundamentals", "tutorial", "beginner", "#", "Build your first React application"),
    Course("Mobile App Development", "course", "intermediate", "#", "Create mobile apps with React Native")]

  const CyberSecurity: seq<Course> := [
    Course("Network Security Basics", "tutorial", "beginner", "#", "Understanding network security principles"),
    Course("Ethical Hacking Course", "course", "advanced", "#", "Learn ethical hacking techniques")]

  const General: seq<Course> := [
    Course("Programming Fundamentals", "tutorial", "beginner", "#", "Basic programming concepts and logic"),
    Course("Problem Solving Skills", "course", "beginner", "#", "Develop analytical thinking skills")]

  /** `domain_recommendations.get(domain, domain_recommendations['general'])`. */
  function Entries(domain: string): seq<Course> {
    if domain == "data_science" then DataScience
    else if domain == "app_development" then AppDevelopment
    else if domain == "cyber_security" then CyberSecurity
    else General
  }

  /** `get_recommendations`: the domain's entries, echoing the domain and the
      user as given, also when the entries fall back to general's. */
  function GetRecommendations(userId: int, domain: string, generatedAt: string): (r: Recommendations)
    ensures r.domain == domain && r.userId == userId
    ensures |r.recommendations| == 2
    ensures domain != "data_science" && domain != "app_development" && domain != "cyber_security" ==>
      r.recommendations == General
  {
    Recommendations(Entries(domain), domain, userId, generatedAt)
  }

  /** Each known domain gets its own table entries, a tutorial then a course. */
  lemma KnownDomains(userId: int, generatedAt: string)
    ensures GetRecommendations(userId, "data_science", generatedAt).recommendations == DataScience
    ensures GetRecommendations(userId, "app_development", generatedAt).recommendations == AppDevelopment
    ensures GetRecommendations(userId, "cyber_security", generatedAt).recommendations == CyberSecurity
    ensures GetRecommendations(userId, "general", generatedAt).recommendations == General
    ensures forall domain :: (GetRecommendations(userId, domain, generatedAt).recommendations[0].kind == "tutorial"
      && GetRecommendations(userId, domain, generatedAt).recommendations[1].kind == "course")
  {
  }
}
